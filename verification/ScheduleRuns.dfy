/**
 Whole runs of one schedule: a list of ticks, each asking `due_at` and recording the
 start it is told to make.

 The schedule is read in a zone with a fixed offset, its marks succeed, and each run is
 over before the next tick. Then the starts are exactly the firings: all of them when
 the ticks are at most a minute apart, and the latest of each sleep otherwise.
 */
module ScheduleRuns {
  import opened Common
  import opened Zones
  import opened Cron
  import opened CronZones
  import opened Schedule

  datatype Start = Start(at: Instant, occurrence: Instant)

  /** The row once a tick at `t` has decided. */
  function RowAfter(s: Schedule, local: Zone, t: Instant): Schedule {
    match DueAt(s, local, t, DEFAULT_GRACE) case None => s case Some(o) => MarkStarted(s, o)
  }

  /** Run the schedule through the ticks. */
  function Starts(s: Schedule, local: Zone, ticks: seq<Instant>): seq<Start>
    decreases |ticks|
  {
    if ticks == [] then [] else
    match DueAt(s, local, ticks[0], DEFAULT_GRACE)
    case None => Starts(s, local, ticks[1..])
    case Some(o) => [Start(ticks[0], o)] + Starts(MarkStarted(s, o), local, ticks[1..])
  }

  ghost predicate Nondecreasing(t: Instant, ticks: seq<Instant>) {
    (ticks != [] ==> t <= ticks[0]) && forall i | 0 < i < |ticks| :: ticks[i - 1] <= ticks[i]
  }

  /** The firings after `a` and up to `b`, in order. */
  function FiringsBetween(e: CronExpression, offset: int, a: Instant, b: Instant): seq<Instant> {
    Instants(offset,
      ExistingMatches(e, FixedOffset(offset), MinuteNumber(a + offset) + 1, MinuteNumber(b + offset) + 1))
  }

  function Instants(offset: int, ks: seq<int>): (s: seq<Instant>)
    ensures |s| == |ks| && forall i | 0 <= i < |ks| :: s[i] == ks[i] * MINUTE - offset
  {
    if ks == [] then [] else [ks[0] * MINUTE - offset] + Instants(offset, ks[1..])
  }

  lemma FiringIsListed(e: CronExpression, offset: int, a: Instant, b: Instant, x: Instant)
    requires a < x <= b && Fires(e, FixedOffset(offset), x)
    ensures x in FiringsBetween(e, offset, a, b)
  {
    var z := FixedOffset(offset);
    var lo, hi := MinuteNumber(a + offset) + 1, MinuteNumber(b + offset) + 1;
    var ks := ExistingMatches(e, z, lo, hi);
    FixedOffsetLaws(offset);
    ExistingMatchesExist(e, z, lo, hi);
    FiringIsOccurrence(e, z, x);
    var k := MinuteNumber(z.wall(x));
    assert k in ks;
    var i :| 0 <= i < |ks| && ks[i] == k;
    assert FiringsBetween(e, offset, a, b)[i] == x;
  }

  lemma ListedIsFiring(e: CronExpression, offset: int, a: Instant, b: Instant, i: nat)
    requires i < |FiringsBetween(e, offset, a, b)|
    ensures var x := FiringsBetween(e, offset, a, b)[i]; a < x <= b && Fires(e, FixedOffset(offset), x)
  {
    var z := FixedOffset(offset);
    var lo, hi := MinuteNumber(a + offset) + 1, MinuteNumber(b + offset) + 1;
    var ks := ExistingMatches(e, z, lo, hi);
    FixedOffsetLaws(offset);
    ExistingMatchesExist(e, z, lo, hi);
    assert ks[i] in ks;
    OccurrenceFires(e, z, ks[i]);
  }

  /** The list is what its name says: exactly the firings of the interval, ascending. */
  lemma FiringsBetweenExactly(e: CronExpression, offset: int, a: Instant, b: Instant)
    ensures Ascending(FiringsBetween(e, offset, a, b))
    ensures forall x :: x in FiringsBetween(e, offset, a, b) <==> a < x <= b && Fires(e, FixedOffset(offset), x)
  {
    var fs := FiringsBetween(e, offset, a, b);
    forall x ensures x in fs <==> a < x <= b && Fires(e, FixedOffset(offset), x) {
      if x in fs {
        var i :| 0 <= i < |fs| && fs[i] == x;
        ListedIsFiring(e, offset, a, b, i);
      } else if a < x <= b && Fires(e, FixedOffset(offset), x) {
        FiringIsListed(e, offset, a, b, x);
      }
    }
    ExistingMatchesExist(e, FixedOffset(offset), MinuteNumber(a + offset) + 1, MinuteNumber(b + offset) + 1);
  }

  // ── What one tick sees ──

  /** The first wall minute a backward scan from `m` looks at. */
  function WindowStart(m: int): int {
    (DateOf(m) - MAX_SCAN_DAYS + 1) * DAY
  }

  function Latest(e: CronExpression, z: Zone, m: int): Option<int> {
    LastUpTo(e, z, m, WindowStart(m))
  }

  /** `l` is the greatest member of `occ` from `lo` to `hi`, if there is one. */
  ghost predicate IsGreatest(occ: iset<int>, lo: int, hi: int, l: Option<int>) {
    match l
    case None => forall k | lo <= k <= hi :: k !in occ
    case Some(g) => lo <= g <= hi && g in occ && forall k | g < k <= hi :: k !in occ
  }

  function Last(ks: seq<int>): Option<int> {
    if ks == [] then None else Some(ks[|ks| - 1])
  }

  lemma {:induction false} LastMatchIsGreatest(e: CronExpression, z: Zone, lo: int, hi: int)
    ensures IsGreatest(Occurrences(e, z), lo, hi - 1, Last(ExistingMatches(e, z, lo, hi)))
    decreases hi - lo
  {
    if lo < hi {
      LastMatchIsGreatest(e, z, lo + 1, hi);
    }
  }

  lemma LatestIsGreatest(e: CronExpression, z: Zone, m: int)
    ensures IsGreatest(Occurrences(e, z), WindowStart(m), m, Latest(e, z, m))
  {
    LastUpToIsGreatest(e, z, m, WindowStart(m));
  }

  /** The newest match up to `n`, given the newest up to `m` and the newest since. */
  function Newer(since: Option<int>, earlier: Option<int>, window: int): Option<int> {
    var newest := if since.Some? then since else earlier;
    if newest.Some? && newest.value >= window then newest else None
  }

  lemma GreatestCombine(occ: iset<int>, m: int, n: int, from: int, window: int, earlier: Option<int>,
                        since: Option<int>, l: Option<int>)
    requires m <= n && from <= window
    requires IsGreatest(occ, from, m, earlier) && IsGreatest(occ, m + 1, n, since) && IsGreatest(occ, window, n, l)
    ensures l == Newer(since, earlier, window)
  {
  }

  lemma WindowMovesOn(m: int, n: int)
    requires m <= n
    ensures WindowStart(m) <= WindowStart(n)
  {
    assert DateOf(m) <= DateOf(n);
  }

  lemma NewerIs(e: CronExpression, z: Zone, m: int, n: int, from: int, window: int, earlier: Option<int>,
                l: Option<int>)
    requires m <= n && from <= window
    requires IsGreatest(Occurrences(e, z), from, m, earlier) && IsGreatest(Occurrences(e, z), window, n, l)
    ensures l == Newer(Last(ExistingMatches(e, z, m + 1, n + 1)), earlier, window)
  {
    LastMatchIsGreatest(e, z, m + 1, n + 1);
    GreatestCombine(Occurrences(e, z), m, n, from, window, earlier, Last(ExistingMatches(e, z, m + 1, n + 1)), l);
  }

  /** A later scan finds the newest match since the earlier one, or what the earlier one found. */
  lemma LatestFrom(e: CronExpression, z: Zone, m: int, n: int)
    requires m <= n
    ensures Latest(e, z, n) == Newer(Last(ExistingMatches(e, z, m + 1, n + 1)), Latest(e, z, m), WindowStart(n))
  {
    WindowMovesOn(m, n);
    LatestIsGreatest(e, z, m);
    LatestIsGreatest(e, z, n);
    NewerIs(e, z, m, n, WindowStart(m), WindowStart(n), Latest(e, z, m), Latest(e, z, n));
  }

  /** Nothing is owed at `t`: a tick then starts nothing. */
  ghost predicate Settled(s: Schedule, local: Zone, t: Instant) {
    s.Baseline() <= t && DueAt(s, local, t, DEFAULT_GRACE) == None
  }

  /** The occurrence a tick at `t` ought to start, when everything was settled at `since`. */
  function Owed(s: Schedule, offset: int, since: Instant, t: Instant): Option<Instant> {
    var fs := FiringsBetween(s.cron, offset, since, t);
    if fs == [] then None else
      var last := fs[|fs| - 1];
      if last + offset < WindowStart(MinuteNumber(t + offset)) * MINUTE then None
      else if s.catchUp || t - last <= DEFAULT_GRACE then Some(last)
      else None
  }

  /** `due_at`, once the latest matching minute is known. */
  function DueFrom(s: Schedule, offset: int, t: Instant, l: Option<int>): Option<Instant> {
    if l.None? then None else
      var o := l.value * MINUTE - offset;
      if o <= s.Baseline() || (!s.catchUp && t - o > DEFAULT_GRACE) then None else Some(o)
  }

  lemma DueIsFromLatest(s: Schedule, local: Zone, offset: int, t: Instant)
    requires ZoneOf(s.timezone, local) == FixedOffset(offset) && s.enabled
    ensures DueAt(s, local, t, DEFAULT_GRACE) ==
      DueFrom(s, offset, t, Latest(s.cron, FixedOffset(offset), MinuteNumber(t + offset)))
  {
    var l := Latest(s.cron, FixedOffset(offset), MinuteNumber(t + offset));
    assert Naive(s.cron, FixedOffset(offset), MinuteNumber(t + offset), Backward) == l;
    assert PrevAtOrBeforeIn(s.cron, FixedOffset(offset), t) == if l.None? then None
      else Some(l.value * MINUTE - offset);
  }

  lemma OwedIsFromLast(s: Schedule, offset: int, since: Instant, t: Instant)
    ensures var lo, hi := MinuteNumber(since + offset) + 1, MinuteNumber(t + offset) + 1;
      var l := Last(ExistingMatches(s.cron, FixedOffset(offset), lo, hi));
      Owed(s, offset, since, t) ==
        if l.None? || l.value < WindowStart(MinuteNumber(t + offset)) then None
        else if s.catchUp || t - (l.value * MINUTE - offset) <= DEFAULT_GRACE then Some(l.value * MINUTE - offset)
        else None
  {
  }

  lemma LastIsBetween(e: CronExpression, z: Zone, m: int, n: int)
    ensures var l := Last(ExistingMatches(e, z, m + 1, n + 1)); l.Some? ==> m < l.value <= n
  {
    LastMatchIsGreatest(e, z, m + 1, n + 1);
  }

  /** The arithmetic of one tick, over the minutes found. */
  lemma OneTick(s: Schedule, offset: int, since: Instant, t: Instant, window: int, earlier: Option<int>,
                last: Option<int>)
    requires since <= t && s.Baseline() <= since && DueFrom(s, offset, since, earlier) == None
    requires last.Some? ==> MinuteNumber(since + offset) < last.value <= MinuteNumber(t + offset)
    ensures var l := Newer(last, earlier, window);
      var due := DueFrom(s, offset, t, l);
      && due == (if last.None? || last.value < window then None
                 else if s.catchUp || t - (last.value * MINUTE - offset) <= DEFAULT_GRACE then
                   Some(last.value * MINUTE - offset)
                 else None)
      && (due.Some? ==> since < due.value <= t && DueFrom(MarkStarted(s, due.value), offset, t, l) == None)
  {
  }

  /** A tick starts what is owed, whatever happened before, and leaves nothing owed. */
  lemma TickStartsWhatIsOwed(s: Schedule, local: Zone, offset: int, since: Instant, t: Instant)
    requires ZoneOf(s.timezone, local) == FixedOffset(offset)
    requires s.enabled && since <= t && Settled(s, local, since)
    ensures DueAt(s, local, t, DEFAULT_GRACE) == Owed(s, offset, since, t)
    ensures match Owed(s, offset, since, t)
      case None => Settled(s, local, t)
      case Some(o) => since < o <= t && Settled(MarkStarted(s, o), local, t)
  {
    var e, z := s.cron, FixedOffset(offset);
    var m, n := MinuteNumber(since + offset), MinuteNumber(t + offset);
    var last := Last(ExistingMatches(e, z, m + 1, n + 1));
    DueIsFromLatest(s, local, offset, since);
    DueIsFromLatest(s, local, offset, t);
    LatestFrom(e, z, m, n);
    LastIsBetween(e, z, m, n);
    OwedIsFromLast(s, offset, since, t);
    OneTick(s, offset, since, t, WindowStart(n), Latest(e, z, m), last);
    var due := Owed(s, offset, since, t);
    if due.Some? {
      DueIsFromLatest(MarkStarted(s, due.value), local, offset, t);
    }
  }

  // ── Whole runs ──

  /** What a run ought to start, from a moment when nothing was owed. */
  function OwedOver(s: Schedule, offset: int, since: Instant, ticks: seq<Instant>): seq<Start>
    decreases |ticks|
  {
    if ticks == [] then [] else
    (match Owed(s, offset, since, ticks[0])
     case None => []
     case Some(o) => [Start(ticks[0], o)]) + OwedOver(s, offset, ticks[0], ticks[1..])
  }

  /**
   For every sequence of ticks, however far apart: each tick starts the latest firing since
   the tick before, once, if the schedule catches up or the grace has not run out, and
   nothing otherwise. A sleep of any length yields at most one make-up run.
   */
  lemma {:induction false} RunStartsWhatIsOwed(s: Schedule, local: Zone, offset: int, since: Instant,
                                               ticks: seq<Instant>)
    requires ZoneOf(s.timezone, local) == FixedOffset(offset)
    requires s.enabled && Nondecreasing(since, ticks) && Settled(s, local, since)
    ensures Starts(s, local, ticks) == OwedOver(s, offset, since, ticks)
    decreases |ticks|
  {
    if ticks != [] {
      TickStartsWhatIsOwed(s, local, offset, since, ticks[0]);
      var due := DueAt(s, local, ticks[0], DEFAULT_GRACE);
      var s' := if due.Some? then MarkStarted(s, due.value) else s;
      RunStartsWhatIsOwed(s', local, offset, ticks[0], ticks[1..]);
      OwedIgnoresMarks(s, s', offset, ticks[0], ticks[1..]);
    }
  }

  lemma {:induction false} OwedIgnoresMarks(s: Schedule, s': Schedule, offset: int, since: Instant, ticks: seq<Instant>)
    requires s'.cron == s.cron && s'.catchUp == s.catchUp
    ensures OwedOver(s', offset, since, ticks) == OwedOver(s, offset, since, ticks)
    decreases |ticks|
  {
    if ticks != [] {
      OwedIgnoresMarks(s, s', offset, ticks[0], ticks[1..]);
    }
  }

  /** Ticks at most a minute apart, which the 30-second tick keeps with a tick to spare. */
  ghost predicate AMinuteApart(t: Instant, ticks: seq<Instant>) {
    && Nondecreasing(t, ticks)
    && (ticks != [] ==> ticks[0] <= t + MINUTE)
    && forall i | 0 < i < |ticks| :: ticks[i] <= ticks[i - 1] + MINUTE
  }

  function Started(starts: seq<Start>): (s: seq<Instant>)
    ensures |s| == |starts| && forall i | 0 <= i < |s| :: s[i] == starts[i].occurrence
  {
    if starts == [] then [] else [starts[0].occurrence] + Started(starts[1..])
  }

  lemma {:induction false} MatchesSplit(e: CronExpression, z: Zone, lo: int, mid: int, hi: int)
    requires lo <= mid <= hi
    ensures ExistingMatches(e, z, lo, hi) == ExistingMatches(e, z, lo, mid) + ExistingMatches(e, z, mid, hi)
    decreases mid - lo
  {
    if lo < mid {
      MatchesSplit(e, z, lo + 1, mid, hi);
    }
  }

  lemma InstantsSplit(offset: int, a: seq<int>, b: seq<int>)
    ensures Instants(offset, a + b) == Instants(offset, a) + Instants(offset, b)
  {
  }

  lemma InstantsOfMatchesSplit(e: CronExpression, offset: int, lo: int, mid: int, hi: int)
    requires lo <= mid <= hi
    ensures var z := FixedOffset(offset);
      Instants(offset, ExistingMatches(e, z, lo, hi)) ==
        Instants(offset, ExistingMatches(e, z, lo, mid)) + Instants(offset, ExistingMatches(e, z, mid, hi))
  {
    var z := FixedOffset(offset);
    MatchesSplit(e, z, lo, mid, hi);
    InstantsSplit(offset, ExistingMatches(e, z, lo, mid), ExistingMatches(e, z, mid, hi));
  }

  lemma MinutesAreOrdered(v: WallTime, w: WallTime)
    requires v <= w
    ensures MinuteNumber(v) <= MinuteNumber(w)
  {
  }

  lemma FiringsAreInstants(e: CronExpression, offset: int, a: Instant, b: Instant, lo: int, hi: int)
    requires lo == MinuteNumber(a + offset) + 1 && hi == MinuteNumber(b + offset) + 1
    ensures FiringsBetween(e, offset, a, b) == Instants(offset, ExistingMatches(e, FixedOffset(offset), lo, hi))
  {
  }

  lemma FiringsSplit(e: CronExpression, offset: int, a: Instant, b: Instant, c: Instant)
    requires a <= b <= c
    ensures FiringsBetween(e, offset, a, c) == FiringsBetween(e, offset, a, b) + FiringsBetween(e, offset, b, c)
  {
    var lo := MinuteNumber(a + offset) + 1;
    var mid := MinuteNumber(b + offset) + 1;
    var hi := MinuteNumber(c + offset) + 1;
    MinutesAreOrdered(a + offset, b + offset);
    MinutesAreOrdered(b + offset, c + offset);
    FiringsAreInstants(e, offset, a, c, lo, hi);
    FiringsAreInstants(e, offset, a, b, lo, mid);
    FiringsAreInstants(e, offset, b, c, mid, hi);
    InstantsOfMatchesSplit(e, offset, lo, mid, hi);
  }

  /** Within a minute there is at most one firing, it is owed, and it is less than a minute late. */
  lemma AMinuteOwesEveryFiring(s: Schedule, offset: int, since: Instant, t: Instant)
    requires since <= t <= since + MINUTE
    ensures var fs := FiringsBetween(s.cron, offset, since, t);
      match Owed(s, offset, since, t)
      case None => fs == []
      case Some(o) => fs == [o] && 0 <= t - o < MINUTE
  {
    var z := FixedOffset(offset);
    var m, n := MinuteNumber(since + offset), MinuteNumber(t + offset);
    assert m <= n <= m + 1;
    assert ExistingMatches(s.cron, z, n + 1, n + 1) == [];
    if n == m + 1 {
      assert ExistingMatches(s.cron, z, m + 1, n + 1) == if Occurs(s.cron, z, n) then [n] else [];
    }
  }

  /**
   Exactly once: with ticks at most a minute apart, the occurrences started after the first
   tick are precisely the firings of the whole interval, each one once and in order, and
   each start is less than a minute late, inside the 90-second grace.
   */
  lemma {:induction false} ExactlyOnceFrom(s: Schedule, local: Zone, offset: int, since: Instant, ticks: seq<Instant>)
    requires ZoneOf(s.timezone, local) == FixedOffset(offset)
    requires s.enabled && AMinuteApart(since, ticks) && Settled(s, local, since)
    ensures var starts := Starts(s, local, ticks);
      && Started(starts) == FiringsBetween(s.cron, offset, since, if ticks == [] then since else ticks[|ticks| - 1])
      && forall x <- starts :: 0 <= x.at - x.occurrence < MINUTE
    decreases |ticks|
  {
    if ticks == [] {
      assert FiringsBetween(s.cron, offset, since, since) == [];
    } else {
      var t, rest := ticks[0], ticks[1..];
      TickStartsWhatIsOwed(s, local, offset, since, t);
      AMinuteOwesEveryFiring(s, offset, since, t);
      var due := DueAt(s, local, t, DEFAULT_GRACE);
      var s' := if due.Some? then MarkStarted(s, due.value) else s;
      ExactlyOnceFrom(s', local, offset, t, rest);
      var end := ticks[|ticks| - 1];
      assert end == if rest == [] then t else rest[|rest| - 1];
      TicksReach(t, rest);
      FiringsSplit(s.cron, offset, since, t, end);
    }
  }

  lemma {:induction false} TicksReach(t: Instant, ticks: seq<Instant>)
    requires Nondecreasing(t, ticks)
    ensures ticks != [] ==> t <= ticks[|ticks| - 1]
    decreases |ticks|
  {
    if ticks != [] {
      TicksReach(ticks[0], ticks[1..]);
    }
  }

  /**
   The whole life of a schedule: the first tick may start an occurrence that is already
   due, and from then on every firing is started exactly once.
   */
  lemma ExactlyOnce(s: Schedule, local: Zone, offset: int, ticks: seq<Instant>)
    requires ZoneOf(s.timezone, local) == FixedOffset(offset)
    requires s.enabled && ticks != [] && s.Baseline() <= ticks[0] && AMinuteApart(ticks[0], ticks[1..])
    ensures var first := DueAt(s, local, ticks[0], DEFAULT_GRACE);
      Started(Starts(s, local, ticks)) ==
        (if first.Some? then [first.value] else [])
        + FiringsBetween(s.cron, offset, ticks[0], ticks[|ticks| - 1])
  {
    var t := ticks[0];
    var due := DueAt(s, local, t, DEFAULT_GRACE);
    var s' := if due.Some? then MarkStarted(s, due.value) else s;
    FixedOffsetLaws(offset);
    PrevIsNeverLater(s.cron, FixedOffset(offset), t);
    assert Settled(s', local, t);
    ExactlyOnceFrom(s', local, offset, t, ticks[1..]);
    assert ticks[|ticks| - 1] == if ticks[1..] == [] then t else ticks[1..][|ticks| - 2];
  }

  /** A minute is the most the ticks may be apart: two minutes apart, an every-minute schedule loses a firing. */
  lemma TwoMinutesApartLosesAFiring(s: Schedule, offset: int, since: Instant)
    requires s.catchUp && (since + offset) % MINUTE == 0
    requires var m := MinuteNumber(since + offset);
      Occurs(s.cron, FixedOffset(offset), m + 1) && Occurs(s.cron, FixedOffset(offset), m + 2)
    ensures Owed(s, offset, since, since + 2 * MINUTE) == Some(since + 2 * MINUTE)
    ensures FiringsBetween(s.cron, offset, since, since + 2 * MINUTE) == [since + MINUTE, since + 2 * MINUTE]
  {
    var z, m := FixedOffset(offset), MinuteNumber(since + offset);
    assert since + offset == m * MINUTE;
    assert MinuteNumber(since + 2 * MINUTE + offset) == m + 2;
    assert ExistingMatches(s.cron, z, m + 3, m + 3) == [];
    assert ExistingMatches(s.cron, z, m + 2, m + 3) == [m + 2];
    assert ExistingMatches(s.cron, z, m + 1, m + 3) == [m + 1, m + 2];
  }

  lemma NothingFiresNothingListed(e: CronExpression, offset: int, a: Instant, b: Instant)
    requires forall x | a < x <= b :: !Fires(e, FixedOffset(offset), x)
    ensures FiringsBetween(e, offset, a, b) == []
  {
    if FiringsBetween(e, offset, a, b) != [] {
      ListedIsFiring(e, offset, a, b, 0);
    }
  }

  /** What the app shows as the next run is what the scheduler starts next: at that instant, it is due. */
  lemma ShownNextRunIsDue(s: Schedule, local: Zone, offset: int, now: Instant)
    requires ZoneOf(s.timezone, local) == FixedOffset(offset)
    requires Settled(s, local, now) && NextRunAt(s, local, now).Some?
    ensures var next := NextRunAt(s, local, now).value;
      && now < next && DueAt(s, local, next, DEFAULT_GRACE) == Some(next)
      && forall t | now <= t < next :: DueAt(s, local, t, DEFAULT_GRACE) == None
  {
    var next := NextRunAt(s, local, now).value;
    NextInFixedZone(s.cron, offset, now);
    TickStartsWhatIsOwed(s, local, offset, now, next);
    FirstFiringIsOwed(s, offset, now, next);
    forall t | now <= t < next ensures DueAt(s, local, t, DEFAULT_GRACE) == None {
      TickStartsWhatIsOwed(s, local, offset, now, t);
      NothingFiresNothingListed(s.cron, offset, now, t);
    }
  }

  lemma FirstFiringIsOwed(s: Schedule, offset: int, now: Instant, next: Instant)
    requires now < next && Fires(s.cron, FixedOffset(offset), next)
    requires forall x | now < x < next :: !Fires(s.cron, FixedOffset(offset), x)
    ensures Owed(s, offset, now, next) == Some(next)
  {
    FiringsBetweenExactly(s.cron, offset, now, next);
    var fs := FiringsBetween(s.cron, offset, now, next);
    assert next in fs;
    assert fs[|fs| - 1] in fs;
    var i :| 0 <= i < |fs| && fs[i] == next;
    assert MinuteNumber(next + offset) >= WindowStart(MinuteNumber(next + offset));
  }
}
