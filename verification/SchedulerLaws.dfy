/**
 What a lost mark costs, and that a run of ticks is one of the interleavings.

 A mark that cannot be stored is only logged. It is the one step that leaves a stored line
 behind the starts, and the next tick then decides by the old line.
 */
module SchedulerLaws {
  import opened Common
  import opened Zones
  import opened Cron
  import opened CronZones
  import opened Schedule
  import opened ScheduleRuns
  import opened ScheduleZones
  import opened Scheduler

  // ── The line is behind a run that has not been marked ──

  /** A tick's run that has not recorded its start yet. */
  predicate Pending(s: State, run: int) {
    run in s.runs && s.runs[run].phase == Spawned && s.runs[run].occurrence.Some?
  }

  /** While a start is not recorded, the stored line is earlier than it. */
  ghost predicate LineIsBehind(s: State) {
    forall r {:trigger Pending(s, r)} | Pending(s, r) && s.runs[r].schedule in s.store ::
      s.store[s.runs[r].schedule].Baseline() < s.runs[r].occurrence.value
  }

  /** A stored line is never later than the line of a row that covers the starts. */
  lemma StoredIsNotLater(s: State, row: Schedule)
    requires RowsCover(s) && LineIsAStart(s) && KnownRow(s, row) && row.id in s.store
    requires StartedUpTo(s.log, row.id, row.Baseline())
    ensures s.store[row.id].Baseline() <= row.Baseline()
  {
    var stored := s.store[row.id];
    assert KnownRow(s, stored);
    if stored.lastRunAt.Some? {
      assert Spawn(row.id, stored.lastRunAt.value) in s.log;
    }
  }

  lemma StepKeepsBehind(s: State, local: Zone, step: Step)
    requires Sound(s) && LineIsAStart(s) && LineIsBehind(s) && Enabled(s, step) && Fresh(s, local, step)
    ensures LineIsBehind(Apply(s, local, step))
  {
    var n := Apply(s, local, step);
    if Claims(s, local, step) {
      ClaimIsNewest(s, local, step);
      var row := s.ticks[step.tick].todo[0];
      assert row in s.ticks[step.tick].todo;
      if row.id in s.store {
        StoredIsNotLater(s, row);
      }
    }
    forall r | Pending(n, r) && n.runs[r].schedule in n.store
      ensures n.store[n.runs[r].schedule].Baseline() < n.runs[r].occurrence.value
    {
      if Pending(s, r) {
        PendingStaysBehind(s, local, step, r);
      }
    }
  }

  lemma PendingStaysBehind(s: State, local: Zone, step: Step, r: int)
    requires Sound(s) && LineIsBehind(s) && Enabled(s, step) && Pending(s, r)
    ensures var n := Apply(s, local, step);
      Pending(n, r) && n.runs[r] == s.runs[r] && n.runs[r].schedule in n.store ==>
        n.store[n.runs[r].schedule].Baseline() < n.runs[r].occurrence.value
  {
    assert s.runs[r].schedule in s.created;
  }

  /** All of it holds of every state that such an interleaving reaches. */
  lemma {:induction false} LineIsAlwaysBehind(s: State, local: Zone, steps: seq<Step>, end: State)
    requires Sound(s) && LineIsAStart(s) && LineIsBehind(s) && AllFresh(s, local, steps) && Leads(s, local, steps, end)
    ensures Sound(end) && LineIsAStart(end) && LineIsBehind(end)
    decreases |steps|
  {
    if steps != [] {
      var next := Apply(s, local, steps[0]);
      StepKeepsSound(s, local, steps[0]);
      StepKeepsLine(s, local, steps[0]);
      StepKeepsBehind(s, local, steps[0]);
      LineIsAlwaysBehind(next, local, steps[1..], end);
    }
  }

  // ── A lost mark ──

  /**
   A mark that is not stored leaves some row's line behind its starts exactly when the run
   was a tick's and its schedule is still there: never after a manual run.
   */
  lemma LostMarkUncoversExactly(s: State, local: Zone, run: int)
    requires Sound(s) && LineIsAStart(s) && LineIsBehind(s) && Enabled(s, Mark(run, false))
    ensures RowsCover(Apply(s, local, Mark(run, false)))
      <==> s.runs[run].occurrence.None? || s.runs[run].schedule !in s.store
  {
    var n := Apply(s, local, Mark(run, false));
    var id := s.runs[run].schedule;
    if s.runs[run].occurrence.Some? && id in s.store {
      assert Pending(s, run);
      assert Spawn(id, s.runs[run].occurrence.value) in n.log;
      NotPendingAnyMore(s, local, run);
    } else {
      forall other | other in n.store
        ensures n.store[other].id == other && KnownRow(n, n.store[other])
        ensures MarkPending(n, other) || StartedUpTo(n.log, other, n.store[other].Baseline())
      {
        if MarkPending(s, other) {
          var r :| r in s.runs && s.runs[r].schedule == other && s.runs[r].phase == Spawned
            && s.runs[r].occurrence.Some?;
          assert r != run && n.runs[r] == s.runs[r];
        }
      }
    }
  }

  lemma NotPendingAnyMore(s: State, local: Zone, run: int)
    requires Exclusive(s) && Enabled(s, Mark(run, false))
    ensures !MarkPending(Apply(s, local, Mark(run, false)), s.runs[run].schedule)
  {
    var n := Apply(s, local, Mark(run, false));
    forall r | r in n.runs && n.runs[r].schedule == s.runs[run].schedule ensures n.runs[r].phase != Spawned {
      assert r in s.runs && s.runs[r].schedule == s.runs[run].schedule;
      assert r == run;
    }
  }

  /**
   After a lost mark, a run that is over, and a tick that reads the store afresh: the
   schedule is free, and its occurrence is decided again under exactly that condition.
   */
  lemma LostMarkFiresAgainExactly(s: State, local: Zone, run: int, tick: int, now: Instant, rows: seq<Schedule>)
    returns (end: State)
    requires Sound(s) && LineIsAStart(s) && LineIsBehind(s) && Pending(s, run)
    requires tick !in s.ticks && ListsEnabled(s.store, rows)
    requires s.runs[run].schedule in s.store && s.store[s.runs[run].schedule].enabled
    requires var row := s.store[s.runs[run].schedule];
      var z := ZoneOf(row.timezone, local);
      Faithful(z) && Fires(row.cron, z, s.runs[run].occurrence.value)
    ensures Leads(s, local, LostMark(run) + [Read(tick, now, rows)], end)
    ensures end.log == s.log && tick in end.ticks && end.ticks[tick].todo == rows && end.ticks[tick].now == now
    ensures var row, o := s.store[s.runs[run].schedule], s.runs[run].occurrence.value;
      && row.id !in end.inFlight && row in rows
      && (DueAt(row, local, now, DEFAULT_GRACE) == Some(o) <==>
            && LatestOnWall(row.cron, ZoneOf(row.timezone, local), o, now)
            && (row.catchUp || now - o <= DEFAULT_GRACE))
  {
    var r := s.runs[run];
    var mid := AfterLostMark(s, run);
    RunLeads(s, local, run, r, false, mid);
    end := Apply(mid, local, Read(tick, now, rows));
    LeadsOneBack(mid, local, Read(tick, now, rows), [], end);
    assert [Read(tick, now, rows)] + [] == [Read(tick, now, rows)];
    LeadsThrough(s, local, LostMark(run), mid, [Read(tick, now, rows)], end);
    DecidedAgainExactly(s.store[r.schedule], local, r.occurrence.value, now);
  }

  function LostMark(run: int): seq<Step> {
    [Mark(run, false)] + ([Finish(run)] + ([Release(run)] + []))
  }

  function AfterLostMark(s: State, run: int): State
    requires run in s.runs
  {
    var r := s.runs[run];
    s.(inFlight := s.inFlight - {r.schedule}, runs := s.runs - {run},
       ticks := map t | t in s.ticks :: s.ticks[t].(stale := s.ticks[t].stale + {r.schedule}))
  }

  // ── A run of ticks ──

  function SpawnsOf(id: Id, starts: seq<Start>): seq<Spawn> {
    if starts == [] then [] else [Spawn(id, starts[0].occurrence)] + SpawnsOf(id, starts[1..])
  }

  /** What a tick at `now` starts. */
  function SpawnsAt(row: Schedule, local: Zone, now: Instant): seq<Spawn> {
    match DueAt(row, local, now, DEFAULT_GRACE) case None => [] case Some(o) => [Spawn(row.id, o)]
  }

  /** One tick of its own: it reads, decides, and if it starts a run, that run ends before the next tick reads. */
  function OneTickSteps(row: Schedule, local: Zone, now: Instant, tick: int, run: int): seq<Step> {
    [Read(tick, now, [row])] +
    if DueAt(row, local, now, DEFAULT_GRACE).Some? then WholeRun(tick, run, true) else [Advance(tick, run)]
  }

  function StepsOf(row: Schedule, local: Zone, ticks: seq<Instant>, tick: int, run: int): seq<Step>
    decreases |ticks|
  {
    if ticks == [] then [] else
      OneTickSteps(row, local, ticks[0], tick, run)
      + StepsOf(RowAfter(row, local, ticks[0]), local, ticks[1..], tick + 1, run)
  }

  ghost predicate TickAlone(s: State, row: Schedule, tick: int, run: int) {
    && row.enabled && ListsEnabled(s.store, [row]) && (forall id <- s.store :: s.store[id].id == id)
    && row.id !in s.inFlight && run !in s.runs && forall t <- s.ticks :: t < tick
  }

  lemma ListsTheMarked(store: map<Id, Schedule>, row: Schedule, marked: Schedule)
    requires ListsEnabled(store, [row]) && (forall id <- store :: store[id].id == id)
    requires marked.id == row.id && marked.enabled
    ensures ListsEnabled(store[row.id := marked], [marked])
  {
    assert row in [row] && row.id in store && store[row.id] == row;
    var after := store[row.id := marked];
    forall id | id in after && after[id].enabled ensures after[id] in [marked] {
      if id != row.id {
        assert store[id] in [row];
      }
    }
  }

  /** The whole tick, as steps of the machine. */
  lemma OneTickLeads(s: State, local: Zone, row: Schedule, now: Instant, tick: int, run: int) returns (end: State)
    requires TickAlone(s, row, tick, run)
    ensures Leads(s, local, OneTickSteps(row, local, now, tick, run), end)
    ensures TickAlone(end, RowAfter(row, local, now), tick + 1, run)
    ensures end.runs == s.runs && end.inFlight == s.inFlight && end.log == s.log + SpawnsAt(row, local, now)
  {
    var due := DueAt(row, local, now, DEFAULT_GRACE);
    var a := Apply(s, local, Read(tick, now, [row]));
    assert row in [row];
    if due.Some? {
      WholeRunLeads(a, local, tick, run, row, due.value, true);
      end := AfterWholeRun(a, local, tick, row, due.value, true);
      LeadsOneBack(s, local, Read(tick, now, [row]), WholeRun(tick, run, true), end);
      ListsTheMarked(s.store, row, MarkStarted(row, due.value));
    } else {
      end := Apply(a, local, Advance(tick, run));
      LeadsOneBack(a, local, Advance(tick, run), [], end);
      assert [Advance(tick, run)] + [] == [Advance(tick, run)];
      LeadsOneBack(s, local, Read(tick, now, [row]), [Advance(tick, run)], end);
      assert s.log + [] == s.log;
    }
  }

  /**
   `Starts`, of which exactly-once is proved, is the log of the machine when each run is
   over before the next tick reads the store.
   */
  lemma {:induction false} StartsAreALog(s: State, local: Zone, row: Schedule, ticks: seq<Instant>, tick: int, run: int)
    returns (end: State)
    requires TickAlone(s, row, tick, run)
    ensures Leads(s, local, StepsOf(row, local, ticks, tick, run), end)
    ensures end.log == s.log + SpawnsOf(row.id, Starts(row, local, ticks))
    decreases |ticks|
  {
    if ticks == [] {
      end := s;
    } else {
      var row' := RowAfter(row, local, ticks[0]);
      var mid := OneTickLeads(s, local, row, ticks[0], tick, run);
      var first, rest := OneTickSteps(row, local, ticks[0], tick, run), StepsOf(row', local, ticks[1..], tick + 1, run);
      end := StartsAreALog(mid, local, row', ticks[1..], tick + 1, run);
      LeadsThrough(s, local, first, mid, rest, end);
      OneMoreSpawn(row.id, local, row, ticks);
      Joined(s.log, SpawnsAt(row, local, ticks[0]), SpawnsOf(row.id, Starts(row', local, ticks[1..])));
    }
  }

  lemma Joined(a: seq<Spawn>, b: seq<Spawn>, c: seq<Spawn>)
    ensures a + b + c == a + (b + c)
  {
  }

  lemma OneMoreSpawn(id: Id, local: Zone, row: Schedule, ticks: seq<Instant>)
    requires ticks != [] && id == row.id
    ensures SpawnsOf(id, Starts(row, local, ticks)) ==
      SpawnsAt(row, local, ticks[0]) + SpawnsOf(id, Starts(RowAfter(row, local, ticks[0]), local, ticks[1..]))
  {
    var due := DueAt(row, local, ticks[0], DEFAULT_GRACE);
    if due.Some? {
      var rest := Starts(MarkStarted(row, due.value), local, ticks[1..]);
      assert ([Start(ticks[0], due.value)] + rest)[1..] == rest;
    }
  }
}
