/**
 What the cron scan means on the instant line: the next and the previous firing, in
 any zone, and the sequence of firings obtained by iterating `next_after_in`.
 */
module CronZones {
  import opened Common
  import opened Calendar
  import opened Zones
  import opened Cron

  /** The instant is the first reading of a matching wall minute, on the minute. */
  ghost predicate Fires(e: CronExpression, z: Zone, i: Instant) {
    z.wall(i) % MINUTE == 0 && Matches(e, z.wall(i)) && FirstPass(z, i)
  }

  /** The wall times a forward scan from `after` covers. */
  function ForwardEnd(z: Zone, after: Instant): WallTime {
    (DateOf(MinuteNumber(z.wall(after)) + 1) + MAX_SCAN_DAYS) * DAY * MINUTE
  }

  function BackwardEnd(z: Zone, at: Instant): WallTime {
    (DateOf(MinuteNumber(z.wall(at))) - MAX_SCAN_DAYS + 1) * DAY * MINUTE
  }

  lemma FiringIsOccurrence(e: CronExpression, z: Zone, i: Instant)
    requires Faithful(z) && Fires(e, z, i)
    ensures z.wall(i) == MinuteNumber(z.wall(i)) * MINUTE
    ensures Occurs(e, z, MinuteNumber(z.wall(i))) && Resolve(z, MinuteNumber(z.wall(i)) * MINUTE) == Some(i)
  {
  }

  lemma OccurrenceFires(e: CronExpression, z: Zone, k: int)
    requires Faithful(z) && Occurs(e, z, k)
    ensures var i := Resolve(z, k * MINUTE).value; Fires(e, z, i) && z.wall(i) == k * MINUTE
  {
    ResolveIsEarliestPreimage(z, k * MINUTE);
    assert MinuteNumber(k * MINUTE) == k;
  }

  lemma NotFiring(e: CronExpression, z: Zone, j: Instant)
    requires Faithful(z)
    requires z.wall(j) % MINUTE == 0 ==> MinuteNumber(z.wall(j)) !in Occurrences(e, z)
    ensures !Fires(e, z, j)
  {
    if Fires(e, z, j) {
      FiringIsOccurrence(e, z, j);
    }
  }

  /** `next_after_in` finds the first firing after the wall reading of `after`, or there is none in the window. */
  lemma NextIsNearestFiring(e: CronExpression, z: Zone, after: Instant)
    requires Faithful(z)
    ensures match NextAfterIn(e, z, after)
      case None => forall j | z.wall(after) < z.wall(j) < ForwardEnd(z, after) :: !Fires(e, z, j)
      case Some(i) =>
        && Fires(e, z, i) && z.wall(after) < z.wall(i) < ForwardEnd(z, after)
        && forall j | z.wall(after) < z.wall(j) < z.wall(i) :: !Fires(e, z, j)
  {
    var start := MinuteNumber(z.wall(after)) + 1;
    NaiveIsNearest(e, z, start, Forward);
    var n := Naive(e, z, start, Forward);
    var end := if n.Some? then n.value * MINUTE else ForwardEnd(z, after);
    if n.Some? {
      OccurrenceFires(e, z, n.value);
    }
    forall j | z.wall(after) < z.wall(j) < end ensures !Fires(e, z, j) {
      NotFiring(e, z, j);
    }
  }

  /** `prev_at_or_before_in` finds the last firing up to the wall reading of `at`. */
  lemma PrevIsNearestFiring(e: CronExpression, z: Zone, at: Instant)
    requires Faithful(z)
    ensures match PrevAtOrBeforeIn(e, z, at)
      case None => forall j | BackwardEnd(z, at) <= z.wall(j) <= z.wall(at) :: !Fires(e, z, j)
      case Some(i) =>
        && Fires(e, z, i) && BackwardEnd(z, at) <= z.wall(i) <= z.wall(at)
        && forall j | z.wall(i) < z.wall(j) <= z.wall(at) :: !Fires(e, z, j)
  {
    var start := MinuteNumber(z.wall(at));
    NaiveIsNearest(e, z, start, Backward);
    var n := Naive(e, z, start, Backward);
    if n.Some? {
      OccurrenceFires(e, z, n.value);
    }
    forall j | (if n.Some? then n.value * MINUTE < z.wall(j) else BackwardEnd(z, at) <= z.wall(j))
      && z.wall(j) <= z.wall(at)
      ensures !Fires(e, z, j)
    {
      NotFiring(e, z, j);
    }
  }

  // ── Zones with a fixed offset ──

  /** On a fixed offset the wall clock drops out: next is the least firing strictly after the instant. */
  lemma NextInFixedZone(e: CronExpression, offset: int, after: Instant)
    ensures var z := FixedOffset(offset);
      match NextAfterIn(e, z, after)
      case None => forall j | after < j < ForwardEnd(z, after) - offset :: !Fires(e, z, j)
      case Some(i) =>
        && Fires(e, z, i) && after < i < ForwardEnd(z, after) - offset
        && forall j | after < j < i :: !Fires(e, z, j)
  {
    FixedOffsetLaws(offset);
    NextIsNearestFiring(e, FixedOffset(offset), after);
  }

  lemma PrevInFixedZone(e: CronExpression, offset: int, at: Instant)
    ensures var z := FixedOffset(offset);
      match PrevAtOrBeforeIn(e, z, at)
      case None => forall j | BackwardEnd(z, at) - offset <= j <= at :: !Fires(e, z, j)
      case Some(i) =>
        && Fires(e, z, i) && BackwardEnd(z, at) - offset <= i <= at
        && forall j | i < j <= at :: !Fires(e, z, j)
  {
    FixedOffsetLaws(offset);
    PrevIsNearestFiring(e, FixedOffset(offset), at);
  }

  // ── Strictly after ──

  /** From the first reading of its wall time, the next firing is strictly later. */
  lemma NextIsStrictlyAfterFirstPass(e: CronExpression, z: Zone, after: Instant)
    requires Faithful(z) && Ordered(z) && FirstPass(z, after)
    ensures var r := NextAfterIn(e, z, after); r.Some? ==> after < r.value && FirstPass(z, r.value)
  {
    NextIsNearestFiring(e, z, after);
    var r := NextAfterIn(e, z, after);
    if r.Some? {
      assert Resolve(z, z.wall(after)).value < Resolve(z, z.wall(r.value)).value;
    }
  }

  /** A previous firing is never in the future, whichever pass of a repeated hour the question is asked in. */
  lemma PrevIsNeverLater(e: CronExpression, z: Zone, at: Instant)
    requires Faithful(z) && Ordered(z)
    ensures var r := PrevAtOrBeforeIn(e, z, at); r.Some? ==> r.value <= at
  {
    PrevIsNearestFiring(e, z, at);
    ResolveIsEarliestPreimage(z, z.wall(at));
    var r := PrevAtOrBeforeIn(e, z, at);
    if r.Some? && z.wall(r.value) < z.wall(at) {
      assert Resolve(z, z.wall(r.value)).value < Resolve(z, z.wall(at)).value;
    }
  }

  /** A matching minute is still to come on the wall, but its first reading has gone by. */
  ghost predicate MatchGoneBy(e: CronExpression, z: Zone, now: Instant) {
    exists k :: Occurs(e, z, k) && MinuteNumber(z.wall(now)) < k && Resolve(z, k * MINUTE).value <= now
  }

  /**
   The documentation promises a result strictly after the given instant. In any zone that
   is so exactly unless a matching minute later on the wall than now was first read before:
   now is then in the second pass of a repeated hour, and what comes back is in the past.
   */
  lemma StrictlyAfterInAnyZone(e: CronExpression, z: Zone, now: Instant)
    requires Faithful(z) && Ordered(z)
    ensures var r := NextAfterIn(e, z, now);
      r.Some? ==> (now < r.value <==> !MatchGoneBy(e, z, now))
  {
    var start := MinuteNumber(z.wall(now)) + 1;
    NaiveIsNearest(e, z, start, Forward);
    var n := Naive(e, z, start, Forward);
    if n.Some? && MatchGoneBy(e, z, now) {
      var k :| Occurs(e, z, k) && MinuteNumber(z.wall(now)) < k && Resolve(z, k * MINUTE).value <= now;
      assert k in Occurrences(e, z);
      if k < n.value {
        assert Visited(start, MAX_SCAN_DAYS, Forward, k) && Ahead(Forward, k, n.value);
      } else if n.value < k {
        assert n.value * MINUTE < k * MINUTE;
        assert Resolve(z, n.value * MINUTE).value < Resolve(z, k * MINUTE).value;
      }
    }
  }

  /** A matching wall minute is still to come before the repeated hour ends. */
  ghost predicate MatchLeftInRepeat(e: CronExpression, at: Instant, before: int, after: int, now: Instant) {
    exists k :: MatchesMinute(e, k) && MinuteNumber(now + after) < k && k * MINUTE < at + before
  }

  /** With one change of offset: exactly unless that hour has a matching minute still to come. */
  lemma StrictlyAfterExactly(e: CronExpression, at: Instant, before: int, after: int, now: Instant)
    requires before != after
    ensures var r := NextAfterIn(e, OneTransition(at, before, after), now);
      r.Some? ==>
        (now < r.value <==>
          !(at <= now < at + before - after && MatchLeftInRepeat(e, at, before, after, now)))
  {
    var z := OneTransition(at, before, after);
    OneTransitionLaws(at, before, after);
    var r := NextAfterIn(e, z, now);
    if at <= now < at + before - after {
      var start := MinuteNumber(z.wall(now)) + 1;
      NaiveIsNearest(e, z, start, Forward);
      var n := Naive(e, z, start, Forward);
      if n.Some? {
        ResolveIsEarliestPreimage(z, n.value * MINUTE);
        if MatchLeftInRepeat(e, at, before, after, now) {
          var k :| MatchesMinute(e, k) && MinuteNumber(now + after) < k && k * MINUTE < at + before;
          assert k in Occurrences(e, z);
          if k < n.value {
            assert Visited(start, MAX_SCAN_DAYS, Forward, k) && Ahead(Forward, k, n.value);
          }
          assert n.value * MINUTE < at + before;
        } else {
          assert MatchesMinute(e, n.value);
          assert at + before <= n.value * MINUTE;
        }
      }
    } else {
      assert FirstPass(z, now);
      NextIsStrictlyAfterFirstPass(e, z, now);
    }
  }

  /** Ten to two on New Year's Day. */
  function TenToTwo(): CronExpression {
    CronExpression({50}, {1}, {1}, {1}, {0, 1, 2, 3, 4, 5, 6}, false, true, "50 1 1 1 *")
  }

  /**
   The clocks go back an hour at 02:00 and `next_after_in` is asked half an hour later,
   at the second 01:30: it answers with the first 01:50, forty minutes earlier.
   */
  lemma NextCanBeEarlier()
    ensures var z := OneTransition(120 * MINUTE, 0, -60 * MINUTE);
      && z.wall(150 * MINUTE) == 90 * MINUTE
      && NextAfterIn(TenToTwo(), z, 150 * MINUTE) == Some(110 * MINUTE)
  {
    var e, z := TenToTwo(), OneTransition(120 * MINUTE, 0, -60 * MINUTE);
    var n := Naive(e, z, 91, Forward);
    NaiveIsNearest(e, z, 91, Forward);
    assert DateOf(110) == 0 && CivilOf(0) == EPOCH;
    assert DayMatches(e, 0);
    assert Occurs(e, z, 110);
    assert Visited(91, MAX_SCAN_DAYS, Forward, 110);
    assert MatchesMinute(e, n.value);
    assert n.value == 110;
  }

  // ── Iterating next_after_in ──

  /** The firings a caller sees by asking for the next one, up to `n` times. */
  function Iterate(e: CronExpression, z: Zone, after: Instant, n: nat): seq<Instant>
    decreases n
  {
    if n == 0 then [] else
      match NextAfterIn(e, z, after)
      case None => []
      case Some(i) => [i] + Iterate(e, z, i, n - 1)
  }

  /** Every matching wall minute of the range that exists, once, in order. */
  function ExistingMatches(e: CronExpression, z: Zone, lo: int, hi: int): seq<int>
    decreases hi - lo
  {
    if lo >= hi then []
    else if Occurs(e, z, lo) then [lo] + ExistingMatches(e, z, lo + 1, hi)
    else ExistingMatches(e, z, lo + 1, hi)
  }

  lemma {:induction false} ExistingMatchesExist(e: CronExpression, z: Zone, lo: int, hi: int)
    ensures forall k :: k in ExistingMatches(e, z, lo, hi) <==> lo <= k < hi && Occurs(e, z, k)
    ensures Ascending(ExistingMatches(e, z, lo, hi))
    decreases hi - lo
  {
    if lo < hi {
      ExistingMatchesExist(e, z, lo + 1, hi);
      var rest := ExistingMatches(e, z, lo + 1, hi);
      assert forall i | 0 <= i < |rest| :: rest[i] in rest;
    }
  }

  lemma {:induction false} NoMatchesUntil(e: CronExpression, z: Zone, lo: int, mid: int, hi: int)
    requires lo <= mid <= hi && forall k | lo <= k < mid :: k !in Occurrences(e, z)
    ensures ExistingMatches(e, z, lo, hi) == ExistingMatches(e, z, mid, hi)
    decreases mid - lo
  {
    if lo < mid {
      assert lo !in Occurrences(e, z);
      NoMatchesUntil(e, z, lo + 1, mid, hi);
    }
  }

  function LastMinute(z: Zone, fired: seq<Instant>): int
    requires fired != []
  {
    MinuteNumber(z.wall(fired[|fired| - 1]))
  }

  /** One question answers with the next existing match, and leaves the rest of the range. */
  lemma NextTakesTheFirstMatch(e: CronExpression, z: Zone, after: Instant, hi: int) returns (k: int)
    requires Faithful(z) && NextAfterIn(e, z, after).Some?
    requires MinuteNumber(z.wall(NextAfterIn(e, z, after).value)) < hi
    ensures k == MinuteNumber(z.wall(NextAfterIn(e, z, after).value))
    ensures Resolve(z, k * MINUTE) == NextAfterIn(e, z, after)
    ensures ExistingMatches(e, z, MinuteNumber(z.wall(after)) + 1, hi) == [k] + ExistingMatches(e, z, k + 1, hi)
  {
    var start := MinuteNumber(z.wall(after)) + 1;
    NaiveIsNearest(e, z, start, Forward);
    k := Naive(e, z, start, Forward).value;
    OccurrenceFires(e, z, k);
    assert MinuteNumber(k * MINUTE) == k;
    forall m | start <= m < k ensures m !in Occurrences(e, z) {
      assert Visited(start, MAX_SCAN_DAYS, Forward, m) && Ahead(Forward, m, k);
    }
    NoMatchesUntil(e, z, start, k, hi);
  }

  /**
   Daylight saving, over a whole run: asking for the next firing again and again visits
   every matching wall minute that exists exactly once, by its first reading, in order.
   A minute in a gap is never visited, a repeated one never twice, and the instants
   strictly increase.
   */
  lemma {:induction false} IterationVisitsEveryMinuteOnce(e: CronExpression, z: Zone, after: Instant, n: nat)
    requires Faithful(z) && Ordered(z) && FirstPass(z, after)
    ensures var fired := Iterate(e, z, after, n);
      fired != [] ==>
        AreReadings(z, fired, ExistingMatches(e, z, MinuteNumber(z.wall(after)) + 1, LastMinute(z, fired) + 1))
    decreases n
  {
    var r := NextAfterIn(e, z, after);
    if n > 0 && r.Some? {
      var i := r.value;
      var rest, fired := Iterate(e, z, i, n - 1), Iterate(e, z, after, n);
      assert fired == [i] + rest;
      NextIsStrictlyAfterFirstPass(e, z, after);
      IterationVisitsEveryMinuteOnce(e, z, i, n - 1);
      LastIsLater(e, z, i, n - 1);
      FirstAndRest(e, z, after, i, rest);
    }
  }

  /** The first answer, with the readings of the rest. */
  lemma FirstAndRest(e: CronExpression, z: Zone, after: Instant, i: Instant, rest: seq<Instant>)
    requires Faithful(z) && NextAfterIn(e, z, after) == Some(i)
    requires rest != [] ==>
      && MinuteNumber(z.wall(i)) < LastMinute(z, rest)
      && AreReadings(z, rest, ExistingMatches(e, z, MinuteNumber(z.wall(i)) + 1, LastMinute(z, rest) + 1))
    ensures var fired := [i] + rest;
      AreReadings(z, fired, ExistingMatches(e, z, MinuteNumber(z.wall(after)) + 1, LastMinute(z, fired) + 1))
  {
    var last := LastMinute(z, [i] + rest);
    assert rest != [] ==> last == LastMinute(z, rest);
    var k := NextTakesTheFirstMatch(e, z, after, last + 1);
    RestReadings(e, z, i, rest, k, last);
    OneMoreReading(z, i, rest, k, ExistingMatches(e, z, k + 1, last + 1));
  }

  lemma RestReadings(e: CronExpression, z: Zone, i: Instant, rest: seq<Instant>, k: int, last: int)
    requires k == MinuteNumber(z.wall(i)) && last == LastMinute(z, [i] + rest)
    requires rest != [] ==>
      AreReadings(z, rest, ExistingMatches(e, z, MinuteNumber(z.wall(i)) + 1, LastMinute(z, rest) + 1))
    ensures AreReadings(z, rest, ExistingMatches(e, z, k + 1, last + 1))
  {
    assert rest != [] ==> LastMinute(z, rest) == last;
  }

  /** The instants are the first readings of the wall minutes, one for one. */
  predicate AreReadings(z: Zone, fired: seq<Instant>, ks: seq<int>) {
    |fired| == |ks| && forall i | 0 <= i < |ks| :: Resolve(z, ks[i] * MINUTE) == Some(fired[i])
  }

  lemma OneMoreReading(z: Zone, i: Instant, rest: seq<Instant>, k: int, ks: seq<int>)
    requires AreReadings(z, rest, ks) && Resolve(z, k * MINUTE) == Some(i)
    ensures AreReadings(z, [i] + rest, [k] + ks)
  {
  }

  ghost predicate IncreasingFrom(e: CronExpression, z: Zone, after: Instant, fired: seq<Instant>) {
    && (forall i | 0 <= i < |fired| :: after < fired[i] && Fires(e, z, fired[i]))
    && (forall i, j | 0 <= i < j < |fired| :: fired[i] < fired[j])
  }

  /** The firings strictly increase, all after the start, and each is a matching minute's first reading. */
  lemma {:induction false} IterationIncreases(e: CronExpression, z: Zone, after: Instant, n: nat)
    requires Faithful(z) && Ordered(z) && FirstPass(z, after)
    ensures IncreasingFrom(e, z, after, Iterate(e, z, after, n))
    decreases n
  {
    var r := NextAfterIn(e, z, after);
    if n > 0 && r.Some? {
      NextIsStrictlyAfterFirstPass(e, z, after);
      NextIsNearestFiring(e, z, after);
      IterationIncreases(e, z, r.value, n - 1);
      OneMoreFiring(e, z, after, r.value, Iterate(e, z, r.value, n - 1));
    }
  }

  lemma OneMoreFiring(e: CronExpression, z: Zone, after: Instant, i: Instant, rest: seq<Instant>)
    requires after < i && Fires(e, z, i) && IncreasingFrom(e, z, i, rest)
    ensures IncreasingFrom(e, z, after, [i] + rest)
  {
  }

  lemma {:induction false} LastIsLater(e: CronExpression, z: Zone, after: Instant, n: nat)
    requires Faithful(z)
    ensures var fired := Iterate(e, z, after, n);
      fired != [] ==> MinuteNumber(z.wall(after)) < LastMinute(z, fired)
    decreases n
  {
    var r := NextAfterIn(e, z, after);
    if n > 0 && r.Some? {
      NextIsNearestFiring(e, z, after);
      LastIsLater(e, z, r.value, n - 1);
      FiringIsOccurrence(e, z, r.value);
      var rest := Iterate(e, z, r.value, n - 1);
      if rest != [] {
        assert LastMinute(z, Iterate(e, z, after, n)) == LastMinute(z, rest);
      }
    }
  }
}
