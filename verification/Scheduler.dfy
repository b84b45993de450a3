/**
 The scheduler: the reservation set, one tick, and every interleaving of ticks, runs and
 manual starts.

 `Scheduler` is the object of the engine: `Claim`, `Release` and the tick loop update its
 reservation set. The rest of the module is the same protocol cut at its await points,
 as a relation between states, so that other tasks may run between any two steps. The
 store is shared and is read before the claim, not with it.
 */
module Scheduler {
  import opened Common
  import opened Zones
  import opened Schedule

  /** A run launched by a tick. */
  datatype Spawn = Spawn(schedule: Id, occurrence: Instant)

  /** One tick over a list of schedules, with nothing in between: what it launches. */
  function TickSpawns(inFlight: set<Id>, schedules: seq<Schedule>, local: Zone, now: Instant): seq<Spawn>
    decreases |schedules|
  {
    if schedules == [] then [] else
      var s := schedules[0];
      var due := DueAt(s, local, now, DEFAULT_GRACE);
      if due.None? || s.id in inFlight then TickSpawns(inFlight, schedules[1..], local, now)
      else [Spawn(s.id, due.value)] + TickSpawns(inFlight + {s.id}, schedules[1..], local, now)
  }

  function Ids(spawns: seq<Spawn>): set<Id> {
    if spawns == [] then {} else {spawns[0].schedule} + Ids(spawns[1..])
  }

  class Scheduler {
    /** Schedules with a run in flight. */
    var inFlight: set<Id>

    constructor ()
      ensures inFlight == {}
    {
      inFlight := {};
    }

    /** The one guard against two runs of a schedule: true for the first caller only. */
    method Claim(id: Id) returns (ok: bool)
      modifies this
      ensures ok <==> id !in old(inFlight)
      ensures inFlight == old(inFlight) + {id}
    {
      ok := id !in inFlight;
      inFlight := inFlight + {id};
    }

    method Release(id: Id)
      modifies this
      ensures inFlight == old(inFlight) - {id}
    {
      inFlight := inFlight - {id};
    }

    /** `tick_once`, when no other task runs during it. */
    method TickOnce(schedules: seq<Schedule>, local: Zone, now: Instant) returns (spawned: seq<Spawn>)
      modifies this
      ensures spawned == TickSpawns(old(inFlight), schedules, local, now)
      ensures inFlight == old(inFlight) + Ids(spawned)
    {
      spawned := [];
      var i := 0;
      assert schedules[0..] == schedules;
      while i < |schedules|
        invariant 0 <= i <= |schedules|
        invariant spawned + TickSpawns(inFlight, schedules[i..], local, now)
          == TickSpawns(old(inFlight), schedules, local, now)
        invariant inFlight == old(inFlight) + Ids(spawned)
      {
        var s := schedules[i];
        assert schedules[i..][1..] == schedules[i + 1..];
        var due := DueAt(s, local, now, DEFAULT_GRACE);
        i := i + 1;
        if due.None? {
          continue;
        }
        var claimed := Claim(s.id);
        if !claimed {
          assert inFlight == old(inFlight) + Ids(spawned);
          continue;
        }
        IdsOfOneMore(spawned, Spawn(s.id, due.value));
        spawned := spawned + [Spawn(s.id, due.value)];
      }
    }

    /** `run_now`: a manual run claims like any other, and never moves the schedule's line. */
    method RunNow(id: Id) returns (started: bool)
      modifies this
      ensures started <==> id !in old(inFlight)
      ensures inFlight == old(inFlight) + {id}
    {
      started := Claim(id);
    }
  }

  lemma {:induction false} IdsOfOneMore(spawns: seq<Spawn>, x: Spawn)
    ensures Ids(spawns + [x]) == Ids(spawns) + {x.schedule}
  {
    if spawns == [] {
      assert spawns + [x] == [x];
      assert [x][1..] == [];
    } else {
      IdsOfOneMore(spawns[1..], x);
      assert (spawns + [x])[1..] == spawns[1..] + [x];
    }
  }

  /** The row at this place is due, its schedule is free, and no earlier row of its schedule is due. */
  predicate Launches(inFlight: set<Id>, schedules: seq<Schedule>, local: Zone, now: Instant, i: nat)
    requires i < |schedules|
  {
    && schedules[i].id !in inFlight && DueAt(schedules[i], local, now, DEFAULT_GRACE).Some?
    && forall j | 0 <= j < i && schedules[j].id == schedules[i].id ::
         DueAt(schedules[j], local, now, DEFAULT_GRACE).None?
  }

  predicate LaunchesAs(inFlight: set<Id>, schedules: seq<Schedule>, local: Zone, now: Instant, i: nat, x: Spawn)
    requires i < |schedules|
  {
    && Launches(inFlight, schedules, local, now, i)
    && x == Spawn(schedules[i].id, DueAt(schedules[i], local, now, DEFAULT_GRACE).value)
  }

  /** A tick launches exactly what is due and free, each for the occurrence decided, and each schedule once. */
  lemma {:induction false} TickLaunchesExactly(inFlight: set<Id>, schedules: seq<Schedule>, local: Zone, now: Instant,
                                               x: Spawn)
    ensures x in TickSpawns(inFlight, schedules, local, now) <==>
      exists i :: 0 <= i < |schedules| && LaunchesAs(inFlight, schedules, local, now, i, x)
    decreases |schedules|
  {
    if schedules != [] {
      var s, rest := schedules[0], schedules[1..];
      var due := DueAt(s, local, now, DEFAULT_GRACE);
      var held := if due.None? || s.id in inFlight then inFlight else inFlight + {s.id};
      TickLaunchesExactly(held, rest, local, now, x);
      forall i | 0 <= i < |rest|
        ensures Launches(held, rest, local, now, i) <==> Launches(inFlight, schedules, local, now, i + 1)
      {
        assert schedules[i + 1] == rest[i];
        if Launches(held, rest, local, now, i) {
          forall j | 0 <= j < i + 1 && schedules[j].id == schedules[i + 1].id
            ensures DueAt(schedules[j], local, now, DEFAULT_GRACE).None?
          {
            assert j > 0 ==> schedules[j] == rest[j - 1];
          }
        }
        if Launches(inFlight, schedules, local, now, i + 1) {
          forall j | 0 <= j < i && rest[j].id == rest[i].id
            ensures DueAt(rest[j], local, now, DEFAULT_GRACE).None?
          {
            assert rest[j] == schedules[j + 1];
          }
        }
      }
      if i :| 0 <= i < |rest| && LaunchesAs(held, rest, local, now, i, x) {
        assert schedules[i + 1] == rest[i] && LaunchesAs(inFlight, schedules, local, now, i + 1, x);
      }
      if i :| 0 < i < |schedules| && LaunchesAs(inFlight, schedules, local, now, i, x) {
        assert schedules[i] == rest[i - 1] && LaunchesAs(held, rest, local, now, i - 1, x);
      }
      assert LaunchesAs(inFlight, schedules, local, now, 0, x) <==>
        s.id !in inFlight && due.Some? && x == Spawn(s.id, due.value);
    }
  }

  // ── Interleavings ──

  datatype Phase = Spawned | Marked | Finished

  datatype Run = Run(schedule: Id, occurrence: Option<Instant>, phase: Phase)

  /** A tick in progress: the rows it read and has not handled yet, and the schedules released since it read them. */
  datatype Tick = Tick(now: Instant, todo: seq<Schedule>, stale: set<Id>)

  datatype State = State(
    store: map<Id, Schedule>, inFlight: set<Id>, ticks: map<int, Tick>, runs: map<int, Run>,
    created: map<Id, Instant>, log: seq<Spawn>)

  /** One step of some task, up to its next await point. */
  datatype Step =
    | Create(row: Schedule)
    | Edit(row: Schedule)
    | Delete(id: Id)
    | Read(tick: int, at: Instant, rows: seq<Schedule>)
    | Advance(tick: int, run: int)
    | RunNow(id: Id, run: int)
    | Mark(run: int, stored: bool)
    | Finish(run: int)
    | Release(run: int)

  /** `list_enabled_schedules`. */
  ghost predicate ListsEnabled(store: map<Id, Schedule>, rows: seq<Schedule>) {
    && (forall row <- rows :: row.id in store && store[row.id] == row && row.enabled)
    && (forall id <- store :: store[id].enabled ==> store[id] in rows)
    && (forall i, j | 0 <= i < j < |rows| :: rows[i].id != rows[j].id)
  }

  ghost predicate Enabled(s: State, step: Step) {
    match step
    case Create(row) => row.id !in s.created && row.lastRunAt == None
    case Edit(row) =>
      row.id in s.store && row.lastRunAt == s.store[row.id].lastRunAt && row.createdAt == s.store[row.id].createdAt
    case Delete(id) => id in s.store
    case Read(tick, at, rows) => tick !in s.ticks && ListsEnabled(s.store, rows)
    case Advance(tick, run) => tick in s.ticks && s.ticks[tick].todo != [] && run !in s.runs
    case RunNow(id, run) => run !in s.runs
    case Mark(run, stored) => run in s.runs && s.runs[run].phase == Spawned
    case Finish(run) => run in s.runs && s.runs[run].phase == Marked
    case Release(run) => run in s.runs && s.runs[run].phase == Finished
  }

  function Decided(s: State, local: Zone, tick: int): Option<Instant>
    requires tick in s.ticks && s.ticks[tick].todo != []
  {
    DueAt(s.ticks[tick].todo[0], local, s.ticks[tick].now, DEFAULT_GRACE)
  }

  /** The step is a tick claiming the schedule it has just decided is due. */
  predicate Claims(s: State, local: Zone, step: Step) {
    && step.Advance? && step.tick in s.ticks && s.ticks[step.tick].todo != []
    && Decided(s, local, step.tick).Some? && s.ticks[step.tick].todo[0].id !in s.inFlight
  }

  function AfterMark(store: map<Id, Schedule>, run: Run, stored: bool): map<Id, Schedule> {
    if stored && run.occurrence.Some? && run.schedule in store
    then store[run.schedule := MarkStarted(store[run.schedule], run.occurrence.value)]
    else store
  }

  function Apply(s: State, local: Zone, step: Step): State
    requires Enabled(s, step)
  {
    match step
    case Create(row) => s.(store := s.store[row.id := row], created := s.created[row.id := row.createdAt])
    case Edit(row) => s.(store := s.store[row.id := row])
    case Delete(id) => s.(store := s.store - {id})
    case Read(tick, at, rows) => s.(ticks := s.ticks[tick := Tick(at, rows, {})])
    case Advance(tick, run) =>
      var t := s.ticks[tick];
      var row := t.todo[0];
      var next := s.(ticks := s.ticks[tick := t.(todo := t.todo[1..])]);
      if Claims(s, local, step) then
        var due := Decided(s, local, tick).value;
        next.(inFlight := s.inFlight + {row.id}, runs := s.runs[run := Run(row.id, Some(due), Spawned)],
          log := s.log + [Spawn(row.id, due)])
      else next
    case RunNow(id, run) =>
      if id in s.inFlight then s
      else s.(inFlight := s.inFlight + {id}, runs := s.runs[run := Run(id, None, Spawned)])
    case Mark(run, stored) =>
      s.(store := AfterMark(s.store, s.runs[run], stored), runs := s.runs[run := s.runs[run].(phase := Marked)])
    case Finish(run) => s.(runs := s.runs[run := s.runs[run].(phase := Finished)])
    case Release(run) =>
      var id := s.runs[run].schedule;
      s.(inFlight := s.inFlight - {id}, runs := s.runs - {run},
        ticks := map tick | tick in s.ticks :: s.ticks[tick].(stale := s.ticks[tick].stale + {id}))
  }

  const INIT := State(map[], {}, map[], map[], map[], [])

  /** The state a list of steps leads to, if every one of them can be taken. */
  ghost predicate Leads(s: State, local: Zone, steps: seq<Step>, end: State)
    decreases |steps|
  {
    if steps == [] then s == end
    else Enabled(s, steps[0]) && Leads(Apply(s, local, steps[0]), local, steps[1..], end)
  }

  // ── At most one run per schedule ──

  ghost predicate Exclusive(s: State) {
    && (forall id :: id in s.inFlight <==> exists r :: r in s.runs && s.runs[r].schedule == id)
    && (forall q, r | q in s.runs && r in s.runs && s.runs[q].schedule == s.runs[r].schedule :: q == r)
  }

  lemma StepKeepsExclusive(s: State, local: Zone, step: Step)
    requires Exclusive(s) && Enabled(s, step)
    ensures Exclusive(Apply(s, local, step))
  {
    var n := Apply(s, local, step);
    forall id ensures id in n.inFlight <==> exists r :: r in n.runs && n.runs[r].schedule == id {
      if id in s.inFlight {
        var r :| r in s.runs && s.runs[r].schedule == id;
        assert r in n.runs ==> n.runs[r].schedule == id;
      }
      match step {
        case Advance(_, run) => assert run in n.runs ==> n.runs[run].schedule in n.inFlight;
        case RunNow(_, run) => assert run in n.runs ==> n.runs[run].schedule in n.inFlight;
        case _ =>
      }
    }
  }

  /** However ticks, runs and manual starts interleave, a schedule never has two runs between claim and release. */
  lemma {:induction false} AtMostOneRun(s: State, local: Zone, steps: seq<Step>, end: State)
    requires Exclusive(s) && Leads(s, local, steps, end)
    ensures Exclusive(end)
    decreases |steps|
  {
    if steps != [] {
      StepKeepsExclusive(s, local, steps[0]);
      AtMostOneRun(Apply(s, local, steps[0]), local, steps[1..], end);
    }
  }

  // ── Occurrences are started in order ──

  /** No occurrence of the schedule later than `b` has been started by a tick. */
  ghost predicate StartedUpTo(log: seq<Spawn>, id: Id, b: Instant) {
    forall x <- log :: x.schedule == id ==> x.occurrence <= b
  }

  /** A tick's run of the schedule is launched but has not recorded its start yet. */
  ghost predicate MarkPending(s: State, id: Id) {
    exists r :: r in s.runs && s.runs[r].schedule == id && s.runs[r].phase == Spawned && s.runs[r].occurrence.Some?
  }

  ghost predicate KnownRow(s: State, row: Schedule) {
    && row.id in s.created && s.created[row.id] == row.createdAt
    && row.createdAt <= row.Baseline()
  }

  /** A stored row's line covers every start, except while the mark is still to be written. */
  ghost predicate RowsCover(s: State) {
    forall id <- s.store ::
      && s.store[id].id == id && KnownRow(s, s.store[id])
      && (MarkPending(s, id) || StartedUpTo(s.log, id, s.store[id].Baseline()))
  }

  /** So does a row in a tick's hands, while its schedule has been free all along. */
  ghost predicate SnapshotsCover(s: State) {
    forall t <- s.ticks :: forall row <- s.ticks[t].todo ::
      && KnownRow(s, row)
      && (row.id in s.ticks[t].stale || row.id in s.inFlight || StartedUpTo(s.log, row.id, row.Baseline()))
  }

  /** A tick's run of the schedule is newer than its creation and than every start of it. */
  ghost predicate NewestRun(created: map<Id, Instant>, log: seq<Spawn>, run: Run) {
    run.phase == Spawned && run.occurrence.Some? ==>
      && run.schedule in created && created[run.schedule] < run.occurrence.value
      && StartedUpTo(log, run.schedule, run.occurrence.value)
  }

  ghost predicate PendingIsNewest(s: State) {
    forall r <- s.runs :: NewestRun(s.created, s.log, s.runs[r])
  }

  /** Per schedule, started occurrences strictly increase, and all come after its creation. */
  ghost predicate InOrder(s: State) {
    && (forall i | 0 <= i < |s.log| ::
      s.log[i].schedule in s.created && s.created[s.log[i].schedule] < s.log[i].occurrence)
    && (forall i, j | 0 <= i < j < |s.log| && s.log[i].schedule == s.log[j].schedule ::
      s.log[i].occurrence < s.log[j].occurrence)
  }

  ghost predicate Sound(s: State) {
    Exclusive(s) && RowsCover(s) && SnapshotsCover(s) && PendingIsNewest(s) && InOrder(s)
  }

  /** The step's mark is stored, and a claim's schedule has not been released since the tick read it. */
  ghost predicate Fresh(s: State, local: Zone, step: Step) {
    && (step.Mark? ==> step.stored)
    && (Claims(s, local, step) ==> s.ticks[step.tick].todo[0].id !in s.ticks[step.tick].stale)
  }

  ghost predicate AllFresh(s: State, local: Zone, steps: seq<Step>)
    decreases |steps|
  {
    steps == []
      || (Enabled(s, steps[0]) && Fresh(s, local, steps[0]) && AllFresh(Apply(s, local, steps[0]), local, steps[1..]))
  }

  /** A claimed occurrence is later than every one started before it. */
  lemma ClaimIsNewest(s: State, local: Zone, step: Step)
    requires Sound(s) && Enabled(s, step) && Fresh(s, local, step) && Claims(s, local, step)
    ensures var row := s.ticks[step.tick].todo[0];
      var due := Decided(s, local, step.tick).value;
      && row.id in s.created && s.created[row.id] < due
      && StartedUpTo(s.log, row.id, row.Baseline()) && row.Baseline() < due
  {
    assert s.ticks[step.tick].todo[0] in s.ticks[step.tick].todo;
  }

  /** The step starts nothing, or something later than the creation and every start of its schedule. */
  ghost predicate StartsNew(s: State, local: Zone, step: Step) {
    Claims(s, local, step) ==>
      var id, due := s.ticks[step.tick].todo[0].id, Decided(s, local, step.tick).value;
      id in s.created && s.created[id] < due && forall x <- s.log | x.schedule == id :: x.occurrence < due
  }

  lemma StepKeepsInOrder(s: State, local: Zone, step: Step)
    requires InOrder(s) && Enabled(s, step) && StartsNew(s, local, step)
    ensures InOrder(Apply(s, local, step))
  {
    if Claims(s, local, step) {
      assert forall x <- s.log :: x.schedule in s.created;
    }
  }

  /** What a step does to the log and to the runs that have not recorded their start. */
  lemma StepStarts(s: State, local: Zone, step: Step, n: State)
    requires Enabled(s, step) && n == Apply(s, local, step)
    ensures forall id <- s.created :: id in n.created && n.created[id] == s.created[id]
    ensures if Claims(s, local, step) then
        var x := Spawn(s.ticks[step.tick].todo[0].id, Decided(s, local, step.tick).value);
        n.log == s.log + [x] && n.runs == s.runs[step.run := Run(x.schedule, Some(x.occurrence), Spawned)]
      else
        && n.log == s.log
        && forall r <- n.runs | n.runs[r].phase == Spawned && n.runs[r].occurrence.Some? ::
             r in s.runs && s.runs[r] == n.runs[r]
  {
  }

  lemma StepKeepsPending(s: State, local: Zone, step: Step)
    requires Exclusive(s) && InOrder(s) && PendingIsNewest(s) && Enabled(s, step) && StartsNew(s, local, step)
    ensures PendingIsNewest(Apply(s, local, step))
  {
    var n := Apply(s, local, step);
    StepStarts(s, local, step, n);
    if Claims(s, local, step) {
      var row := s.ticks[step.tick].todo[0];
      ClaimKeepsPending(s, n, step.run, Spawn(row.id, Decided(s, local, step.tick).value));
    } else {
      forall r | r in n.runs ensures NewestRun(n.created, n.log, n.runs[r]) {
      }
    }
  }

  lemma ClaimKeepsPending(s: State, n: State, run: int, x: Spawn)
    requires Exclusive(s) && PendingIsNewest(s) && x.schedule !in s.inFlight
    requires forall id <- s.created :: id in n.created && n.created[id] == s.created[id]
    requires n.log == s.log + [x] && n.runs == s.runs[run := Run(x.schedule, Some(x.occurrence), Spawned)]
    requires x.schedule in s.created && s.created[x.schedule] < x.occurrence
    requires forall y <- s.log | y.schedule == x.schedule :: y.occurrence < x.occurrence
    ensures PendingIsNewest(n)
  {
    forall r | r in n.runs ensures NewestRun(n.created, n.log, n.runs[r]) {
      if r != run {
        assert s.runs[r].schedule in s.inFlight;
      }
    }
  }

  lemma StepKeepsOrder(s: State, local: Zone, step: Step)
    requires Exclusive(s) && InOrder(s) && PendingIsNewest(s) && Enabled(s, step) && StartsNew(s, local, step)
    ensures InOrder(Apply(s, local, step)) && PendingIsNewest(Apply(s, local, step))
  {
    StepKeepsInOrder(s, local, step);
    StepKeepsPending(s, local, step);
  }

  /** A pending run stays pending until its mark. */
  lemma PendingUntilMarked(s: State, local: Zone, step: Step, id: Id)
    requires MarkPending(s, id) && Enabled(s, step)
    ensures MarkPending(Apply(s, local, step), id) || (step.Mark? && s.runs[step.run].schedule == id
      && s.runs[step.run].occurrence.Some?)
  {
    var n := Apply(s, local, step);
    var r :| r in s.runs && s.runs[r].schedule == id && s.runs[r].phase == Spawned && s.runs[r].occurrence.Some?;
    assert (r in n.runs && n.runs[r] == s.runs[r]) || (step.Mark? && step.run == r);
  }

  lemma StepKeepsRow(s: State, local: Zone, step: Step, id: Id)
    requires RowsCover(s) && InOrder(s) && PendingIsNewest(s)
    requires Enabled(s, step) && (step.Mark? ==> step.stored) && id in Apply(s, local, step).store
    ensures var n := Apply(s, local, step);
      && n.store[id].id == id && KnownRow(n, n.store[id])
      && (MarkPending(n, id) || StartedUpTo(n.log, id, n.store[id].Baseline()))
  {
    var n := Apply(s, local, step);
    if MarkPending(s, id) {
      PendingUntilMarked(s, local, step, id);
    }
    if Claims(s, local, step) && s.ticks[step.tick].todo[0].id == id {
      assert n.runs[step.run].schedule == id;
    }
  }

  lemma StepKeepsRows(s: State, local: Zone, step: Step)
    requires RowsCover(s) && InOrder(s) && PendingIsNewest(s)
    requires Enabled(s, step) && (step.Mark? ==> step.stored)
    ensures RowsCover(Apply(s, local, step))
  {
    forall id | id in Apply(s, local, step).store
      ensures var n := Apply(s, local, step);
        && n.store[id].id == id && KnownRow(n, n.store[id])
        && (MarkPending(n, id) || StartedUpTo(n.log, id, n.store[id].Baseline()))
    {
      StepKeepsRow(s, local, step, id);
    }
  }

  lemma StepKeepsSnapshots(s: State, local: Zone, step: Step)
    requires Sound(s) && Enabled(s, step) && Fresh(s, local, step)
    ensures SnapshotsCover(Apply(s, local, step))
  {
    var n := Apply(s, local, step);
    forall t, row | t in n.ticks && row in n.ticks[t].todo
      ensures KnownRow(n, row)
      ensures row.id in n.ticks[t].stale || row.id in n.inFlight || StartedUpTo(n.log, row.id, row.Baseline())
    {
      if step.Read? && step.tick == t {
        assert s.store[row.id] == row;
      } else {
        assert row in s.ticks[t].todo;
      }
    }
  }

  lemma StepKeepsSound(s: State, local: Zone, step: Step)
    requires Sound(s) && Enabled(s, step) && Fresh(s, local, step)
    ensures Sound(Apply(s, local, step))
  {
    if Claims(s, local, step) {
      ClaimIsNewest(s, local, step);
    }
    StepKeepsExclusive(s, local, step);
    StepKeepsOrder(s, local, step);
    StepKeepsRows(s, local, step);
    StepKeepsSnapshots(s, local, step);
  }

  /**
   Over any interleaving in which marks are stored and no claim is stale: each schedule's
   tick-started occurrences strictly increase and come after its creation, whatever the
   clocks read, even backwards.
   */
  lemma {:induction false} StartsAreInOrder(s: State, local: Zone, steps: seq<Step>, end: State)
    requires Sound(s) && AllFresh(s, local, steps) && Leads(s, local, steps, end)
    ensures Sound(end)
    decreases |steps|
  {
    if steps != [] {
      StepKeepsSound(s, local, steps[0]);
      StartsAreInOrder(Apply(s, local, steps[0]), local, steps[1..], end);
    }
  }

  lemma RunsFromTheStart(local: Zone, steps: seq<Step>, end: State)
    requires AllFresh(INIT, local, steps) && Leads(INIT, local, steps, end)
    ensures Exclusive(end) && InOrder(end)
  {
    StartsAreInOrder(INIT, local, steps, end);
  }

  /** A stored line is either unset or an occurrence some tick started. */
  ghost predicate LineIsAStart(s: State) {
    && (forall id <- s.store :: s.store[id].lastRunAt.Some? ==> Spawn(id, s.store[id].lastRunAt.value) in s.log)
    && (forall r <- s.runs :: s.runs[r].occurrence.Some? ==>
      Spawn(s.runs[r].schedule, s.runs[r].occurrence.value) in s.log)
  }

  lemma StepKeepsLine(s: State, local: Zone, step: Step)
    requires LineIsAStart(s) && Enabled(s, step)
    ensures LineIsAStart(Apply(s, local, step))
  {
  }

  lemma {:induction false} LineIsAlwaysAStart(s: State, local: Zone, steps: seq<Step>, end: State)
    requires LineIsAStart(s) && Leads(s, local, steps, end)
    ensures LineIsAStart(end)
    decreases |steps|
  {
    if steps != [] {
      StepKeepsLine(s, local, steps[0]);
      LineIsAlwaysAStart(Apply(s, local, steps[0]), local, steps[1..], end);
    }
  }

  // ── What the two hypotheses rule out ──

  /** One step, on the way to an end. */
  lemma LeadsOneBack(s: State, local: Zone, step: Step, rest: seq<Step>, end: State)
    requires Enabled(s, step) && Leads(Apply(s, local, step), local, rest, end)
    ensures Leads(s, local, [step] + rest, end)
  {
    assert ([step] + rest)[1..] == rest;
  }

  /** A tick's run from its claim to its release, with nothing in between. */
  function WholeRun(tick: int, run: int, stored: bool): seq<Step> {
    [Advance(tick, run)] + ([Mark(run, stored)] + ([Finish(run)] + ([Release(run)] + [])))
  }

  /** Where a whole run leaves the state. */
  function AfterWholeRun(s: State, local: Zone, tick: int, row: Schedule, due: Instant, stored: bool): State
    requires tick in s.ticks
  {
    s.(store := AfterMark(s.store, Run(row.id, Some(due), Spawned), stored),
      ticks := map t | t in s.ticks ::
        Tick(s.ticks[t].now, if t == tick then [] else s.ticks[t].todo, s.ticks[t].stale + {row.id}),
      log := s.log + [Spawn(row.id, due)])
  }

  lemma AdvanceClaims(s: State, local: Zone, tick: int, run: int, row: Schedule, due: Instant)
    requires tick in s.ticks && s.ticks[tick].todo == [row] && row.id !in s.inFlight && run !in s.runs
    requires DueAt(row, local, s.ticks[tick].now, DEFAULT_GRACE) == Some(due)
    ensures Enabled(s, Advance(tick, run))
    ensures Apply(s, local, Advance(tick, run)) ==
      s.(ticks := s.ticks[tick := s.ticks[tick].(todo := [])], inFlight := s.inFlight + {row.id},
         runs := s.runs[run := Run(row.id, Some(due), Spawned)], log := s.log + [Spawn(row.id, due)])
  {
    assert [row][1..] == [];
  }

  /** From launch to release, a run writes its mark and frees its schedule. */
  lemma RunLeads(s: State, local: Zone, run: int, r: Run, stored: bool, end: State)
    requires run in s.runs && s.runs[run] == r && r.phase == Spawned
    requires end == s.(store := AfterMark(s.store, r, stored), inFlight := s.inFlight - {r.schedule},
      runs := s.runs - {run},
      ticks := map t | t in s.ticks :: s.ticks[t].(stale := s.ticks[t].stale + {r.schedule}))
    ensures Leads(s, local, [Mark(run, stored)] + ([Finish(run)] + ([Release(run)] + [])), end)
  {
    var b := Apply(s, local, Mark(run, stored));
    var c := Apply(b, local, Finish(run));
    assert c.runs - {run} == s.runs - {run};
    assert Apply(c, local, Release(run)) == end;
    LeadsOneBack(c, local, Release(run), [], end);
    LeadsOneBack(b, local, Finish(run), [Release(run)] + [], end);
    LeadsOneBack(s, local, Mark(run, stored), [Finish(run)] + ([Release(run)] + []), end);
  }

  lemma WholeRunLeads(s: State, local: Zone, tick: int, run: int, row: Schedule, due: Instant, stored: bool)
    requires tick in s.ticks && s.ticks[tick].todo == [row] && row.id !in s.inFlight && run !in s.runs
    requires DueAt(row, local, s.ticks[tick].now, DEFAULT_GRACE) == Some(due)
    ensures Leads(s, local, WholeRun(tick, run, stored), AfterWholeRun(s, local, tick, row, due, stored))
  {
    var r := Run(row.id, Some(due), Spawned);
    var end := AfterWholeRun(s, local, tick, row, due, stored);
    var a := Apply(s, local, Advance(tick, run));
    AdvanceClaims(s, local, tick, run, row, due);
    assert a.runs - {run} == s.runs;
    assert a.inFlight - {row.id} == s.inFlight;
    RunLeads(a, local, run, r, stored, end);
    LeadsOneBack(s, local, Advance(tick, run), [Mark(run, stored)] + ([Finish(run)] + ([Release(run)] + [])), end);
  }

  lemma {:induction false} LeadsThrough(s: State, local: Zone, first: seq<Step>, mid: State, second: seq<Step>,
                                        end: State)
    requires Leads(s, local, first, mid) && Leads(mid, local, second, end)
    ensures Leads(s, local, first + second, end)
    decreases |first|
  {
    if first == [] {
      assert first + second == second;
    } else {
      LeadsThrough(Apply(s, local, first[0]), local, first[1..], mid, second, end);
      LeadsOneBack(s, local, first[0], first[1..] + second, end);
      assert first + second == [first[0]] + (first[1..] + second);
    }
  }

  /** A row is created, and two ticks read it. */
  function TwoReads(row: Schedule, at: Instant): seq<Step> {
    [Create(row)] + ([Read(1, at, [row])] + ([Read(2, at, [row])] + []))
  }

  function AfterTwoReads(row: Schedule, at: Instant): State {
    INIT.(store := map[row.id := row], created := map[row.id := row.createdAt],
      ticks := map[1 := Tick(at, [row], {}), 2 := Tick(at, [row], {})])
  }

  lemma BothTicksCanRead(row: Schedule, local: Zone, at: Instant)
    requires row.lastRunAt == None && row.enabled
    ensures Leads(INIT, local, TwoReads(row, at), AfterTwoReads(row, at))
  {
    var a := Apply(INIT, local, Create(row));
    var b := Apply(a, local, Read(1, at, [row]));
    var c := Apply(b, local, Read(2, at, [row]));
    assert c == AfterTwoReads(row, at);
    LeadsOneBack(b, local, Read(2, at, [row]), [], c);
    LeadsOneBack(a, local, Read(1, at, [row]), [Read(2, at, [row])] + [], c);
    LeadsOneBack(INIT, local, Create(row), [Read(1, at, [row])] + ([Read(2, at, [row])] + []), c);
  }

  /**
   Two ticks have read the row; the second claims it after the first one's run is over. The
   same occurrence is started twice: the claim does not look at the stored line again.
   */
  lemma StaleClaimFiresTwice(row: Schedule, local: Zone, at: Instant, due: Instant) returns (end: State)
    requires row.lastRunAt == None && row.enabled && DueAt(row, local, at, DEFAULT_GRACE) == Some(due)
    ensures Leads(INIT, local, TwoReads(row, at) + (WholeRun(1, 1, true) + WholeRun(2, 1, true)), end)
    ensures end.log == [Spawn(row.id, due), Spawn(row.id, due)]
  {
    var s := AfterTwoReads(row, at);
    var mid := AfterWholeRun(s, local, 1, row, due, true);
    end := AfterWholeRun(mid, local, 2, row, due, true);
    BothTicksCanRead(row, local, at);
    WholeRunLeads(s, local, 1, 1, row, due, true);
    WholeRunLeads(mid, local, 2, 1, row, due, true);
    LeadsThrough(s, local, WholeRun(1, 1, true), mid, WholeRun(2, 1, true), end);
    LeadsThrough(INIT, local, TwoReads(row, at), s, WholeRun(1, 1, true) + WholeRun(2, 1, true), end);
  }

  /** A mark that cannot be stored is only logged: the next tick reads the old line and starts the occurrence again. */
  lemma LostMarkFiresTwice(row: Schedule, local: Zone, at: Instant, due: Instant) returns (end: State)
    requires row.lastRunAt == None && row.enabled && DueAt(row, local, at, DEFAULT_GRACE) == Some(due)
    ensures Leads(INIT, local,
      TwoReads(row, at) + (WholeRun(1, 1, false) + ([Read(3, at, [row])] + WholeRun(3, 1, true))), end)
    ensures end.log == [Spawn(row.id, due), Spawn(row.id, due)]
  {
    var s := AfterTwoReads(row, at);
    var mid := AfterWholeRun(s, local, 1, row, due, false);
    var read := Apply(mid, local, Read(3, at, [row]));
    end := AfterWholeRun(read, local, 3, row, due, true);
    BothTicksCanRead(row, local, at);
    WholeRunLeads(s, local, 1, 1, row, due, false);
    WholeRunLeads(read, local, 3, 1, row, due, true);
    LeadsOneBack(mid, local, Read(3, at, [row]), WholeRun(3, 1, true), end);
    LeadsThrough(s, local, WholeRun(1, 1, false), mid, [Read(3, at, [row])] + WholeRun(3, 1, true), end);
    LeadsThrough(INIT, local, TwoReads(row, at), s,
      WholeRun(1, 1, false) + ([Read(3, at, [row])] + WholeRun(3, 1, true)), end);
  }

  lemma AdvanceIsOneTurn(s: State, local: Zone, tick: int, run: int)
    requires tick in s.ticks && s.ticks[tick].todo != [] && forall r <- s.runs :: r < run
    ensures Enabled(s, Advance(tick, run))
    ensures var n := Apply(s, local, Advance(tick, run));
      var t := s.ticks[tick];
      var due := DueAt(t.todo[0], local, t.now, DEFAULT_GRACE);
      && tick in n.ticks && n.ticks[tick].todo == t.todo[1..] && n.ticks[tick].now == t.now
      && n.store == s.store && (forall r <- n.runs :: r < run + 1)
      && (if due.None? || t.todo[0].id in s.inFlight then n.log == s.log && n.inFlight == s.inFlight
          else n.log == s.log + [Spawn(t.todo[0].id, due.value)] && n.inFlight == s.inFlight + {t.todo[0].id})
  {
  }

  /** The log and the reservations once a tick has launched these. */
  ghost predicate Launched(s: State, spawns: seq<Spawn>, end: State) {
    end.log == s.log + spawns && end.inFlight == s.inFlight + Ids(spawns) && end.store == s.store
  }

  lemma LaunchedOneMore(s: State, x: Spawn, n: State, rest: seq<Spawn>, end: State)
    requires n.log == s.log + [x] && n.inFlight == s.inFlight + {x.schedule} && n.store == s.store
    requires Launched(n, rest, end)
    ensures Launched(s, [x] + rest, end)
  {
    assert ([x] + rest)[1..] == rest;
  }

  ghost predicate AdvancesOf(steps: seq<Step>, tick: int) {
    forall x <- steps :: x.Advance? && x.tick == tick
  }

  /** `TickOnce` is the interleaving in which a tick's steps are taken one after the other. */
  lemma {:induction false} TickOnceIsAnInterleaving(s: State, local: Zone, tick: int, run: int)
    returns (steps: seq<Step>, end: State)
    requires tick in s.ticks && forall r <- s.runs :: r < run
    ensures Leads(s, local, steps, end) && AdvancesOf(steps, tick)
    ensures Launched(s, TickSpawns(s.inFlight, s.ticks[tick].todo, local, s.ticks[tick].now), end)
    ensures tick in end.ticks && end.ticks[tick].todo == []
    decreases |s.ticks[tick].todo|
  {
    var t := s.ticks[tick];
    if t.todo == [] {
      steps, end := [], s;
    } else {
      AdvanceIsOneTurn(s, local, tick, run);
      var n := Apply(s, local, Advance(tick, run));
      var rest;
      rest, end := TickOnceIsAnInterleaving(n, local, tick, run + 1);
      steps := [Advance(tick, run)] + rest;
      LeadsOneBack(s, local, Advance(tick, run), rest, end);
      var due := DueAt(t.todo[0], local, t.now, DEFAULT_GRACE);
      if due.Some? && t.todo[0].id !in s.inFlight {
        LaunchedOneMore(s, Spawn(t.todo[0].id, due.value), n, TickSpawns(n.inFlight, t.todo[1..], local, t.now), end);
      }
    }
  }
}
