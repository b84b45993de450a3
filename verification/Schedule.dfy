/** A schedule, and the one question the scheduler asks of it: is it due? */
module Schedule {
  import opened Common
  import opened Zones
  import opened Cron

  type Id = int

  const SECOND := 1_000_000_000

  /** A start later than this is made only by a schedule that catches up. */
  const DEFAULT_GRACE := 90 * SECOND

  datatype ScheduleTimezone = Local | Utc

  datatype Schedule = Schedule(
    id: Id, cron: CronExpression, timezone: ScheduleTimezone, enabled: bool, catchUp: bool,
    lastRunAt: Option<Instant>, createdAt: Instant)
  {
    /** `last_run_at`, or the creation time of a schedule that has never run. */
    function Baseline(): Instant {
      if lastRunAt.Some? then lastRunAt.value else createdAt
    }
  }

  /** The clock an expression is read against; `local` is the machine's zone. */
  function ZoneOf(tz: ScheduleTimezone, local: Zone): Zone {
    if tz.Utc? then FixedOffset(0) else local
  }

  /** `due_at`: the occurrence to start now, if there is one. */
  function DueAt(s: Schedule, local: Zone, now: Instant, grace: int): Option<Instant> {
    if !s.enabled then None else
    match PrevAtOrBeforeIn(s.cron, ZoneOf(s.timezone, local), now)
    case None => None
    case Some(occurrence) =>
      if occurrence <= s.Baseline() then None
      else if !s.catchUp && now - occurrence > grace then None
      else Some(occurrence)
  }

  /** `next_run_at`, for display. */
  function NextRunAt(s: Schedule, local: Zone, now: Instant): Option<Instant> {
    if s.enabled then NextAfterIn(s.cron, ZoneOf(s.timezone, local), now) else None
  }

  /** `mark_schedule_started`: the occurrence, not the time of day, moves the line. */
  function MarkStarted(s: Schedule, occurrence: Instant): Schedule {
    s.(lastRunAt := Some(occurrence))
  }
}
