/**
 When starts are in order, claim by claim.

 The claim does not look at the stored line: it goes by the row its tick has read. Over a
 whole interleaving whose marks are stored, the starts are in order exactly if no claim
 would have been refused by the line stored at its moment.
 */
module SchedulerOrder {
  import opened Common
  import opened Zones
  import opened Schedule
  import opened Scheduler

  /** The occurrence of the latest start of the schedule. */
  function LastStart(log: seq<Spawn>, id: Id): Option<Instant> {
    if log == [] then None
    else if log[|log| - 1].schedule == id then Some(log[|log| - 1].occurrence)
    else LastStart(log[..|log| - 1], id)
  }

  /**
   A claim's occurrence is later than the line stored at that moment. A schedule that was
   deleted after the tick read it has no line any more: there, later than its last start.
   */
  predicate ClaimsAhead(s: State, local: Zone, step: Step) {
    Claims(s, local, step) ==>
      var id, due := s.ticks[step.tick].todo[0].id, Decided(s, local, step.tick).value;
      if id in s.store then s.store[id].Baseline() < due
      else LastStart(s.log, id).Some? ==> LastStart(s.log, id).value < due
  }

  /** Every claim along the way. */
  ghost predicate AllAhead(s: State, local: Zone, steps: seq<Step>)
    decreases |steps|
  {
    steps != [] ==>
      && Enabled(s, steps[0]) && ClaimsAhead(s, local, steps[0])
      && AllAhead(Apply(s, local, steps[0]), local, steps[1..])
  }

  predicate MarksAreStored(steps: seq<Step>) {
    forall step <- steps :: step.Mark? ==> step.stored
  }

  /** The rows in the hands of ticks are of schedules that were created. */
  ghost predicate SnapshotsKnown(s: State) {
    forall t <- s.ticks :: forall row <- s.ticks[t].todo :: KnownRow(s, row)
  }

  /** What holds between steps as long as the starts are in order, fresh claims or stale ones. */
  ghost predicate Ordered(s: State) {
    Exclusive(s) && RowsCover(s) && SnapshotsKnown(s) && PendingIsNewest(s) && LineIsAStart(s) && InOrder(s)
  }

  lemma {:induction false} LastStartIsGreatest(log: seq<Spawn>, id: Id)
    requires forall i, j | 0 <= i < j < |log| && log[i].schedule == log[j].schedule ::
      log[i].occurrence < log[j].occurrence
    ensures match LastStart(log, id)
      case None => forall x <- log :: x.schedule != id
      case Some(o) => Spawn(id, o) in log && forall x <- log | x.schedule == id :: x.occurrence <= o
  {
    if log != [] && log[|log| - 1].schedule != id {
      LastStartIsGreatest(log[..|log| - 1], id);
      assert log == log[..|log| - 1] + [log[|log| - 1]];
    }
  }

  /** The claim starts something new exactly if it is ahead of the line stored now, which it does not read. */
  lemma StaleClaimExactly(s: State, local: Zone, step: Step)
    requires Ordered(s) && Enabled(s, step)
    ensures StartsNew(s, local, step) <==> ClaimsAhead(s, local, step)
  {
    if Claims(s, local, step) {
      var row := s.ticks[step.tick].todo[0];
      assert row in s.ticks[step.tick].todo && KnownRow(s, row);
      LastStartIsGreatest(s.log, row.id);
      if row.id in s.store {
        assert KnownRow(s, s.store[row.id]) && !MarkPending(s, row.id);
      }
    }
  }

  lemma StepKeepsKnown(s: State, local: Zone, step: Step)
    requires Ordered(s) && Enabled(s, step)
    ensures SnapshotsKnown(Apply(s, local, step))
  {
    var n := Apply(s, local, step);
    forall t, row | t in n.ticks && row in n.ticks[t].todo ensures KnownRow(n, row) {
      if step.Read? && step.tick == t {
        assert s.store[row.id] == row && KnownRow(s, s.store[row.id]);
      } else {
        assert row in s.ticks[t].todo;
      }
    }
  }

  lemma StepKeepsOrdered(s: State, local: Zone, step: Step)
    requires Ordered(s) && Enabled(s, step) && StartsNew(s, local, step) && (step.Mark? ==> step.stored)
    ensures Ordered(Apply(s, local, step))
  {
    StepKeepsExclusive(s, local, step);
    StepKeepsOrder(s, local, step);
    StepKeepsRows(s, local, step);
    StepKeepsKnown(s, local, step);
    StepKeepsLine(s, local, step);
  }

  /** What was started, and when a schedule was created, is never rewritten. */
  lemma {:induction false} LogGrows(s: State, local: Zone, steps: seq<Step>, end: State)
    requires Leads(s, local, steps, end)
    ensures s.log <= end.log && forall id <- s.created :: id in end.created && end.created[id] == s.created[id]
    decreases |steps|
  {
    if steps != [] {
      LogGrows(Apply(s, local, steps[0]), local, steps[1..], end);
    }
  }

  /** A start out of order stays in the log. */
  lemma OldStartStays(s: State, local: Zone, step: Step, rest: seq<Step>, end: State)
    requires Ordered(s) && Enabled(s, step) && !StartsNew(s, local, step)
    requires Leads(Apply(s, local, step), local, rest, end)
    ensures !InOrder(end)
  {
    var n := Apply(s, local, step);
    var row := s.ticks[step.tick].todo[0];
    assert row in s.ticks[step.tick].todo && KnownRow(s, row);
    LogGrows(n, local, rest, end);
    var k := |s.log|;
    assert n.log[k] == Spawn(row.id, Decided(s, local, step.tick).value) == end.log[k];
    var x :| x in s.log && x.schedule == row.id && x.occurrence >= n.log[k].occurrence;
    var i :| 0 <= i < |s.log| && s.log[i] == x;
    assert end.log[i] == n.log[i] == x;
  }

  /**
   Over any interleaving whose marks are stored: the starts of each schedule strictly
   increase exactly if every claim's occurrence is later than the line stored at that moment.
   */
  lemma {:induction false} OrderExactly(s: State, local: Zone, steps: seq<Step>, end: State)
    requires Ordered(s) && MarksAreStored(steps) && Leads(s, local, steps, end)
    ensures InOrder(end) <==> AllAhead(s, local, steps)
    decreases |steps|
  {
    if steps != [] {
      var step, rest := steps[0], steps[1..];
      StaleClaimExactly(s, local, step);
      if StartsNew(s, local, step) {
        StepKeepsOrdered(s, local, step);
        OrderExactly(Apply(s, local, step), local, rest, end);
      } else {
        OldStartStays(s, local, step, rest, end);
      }
    }
  }

  lemma OrderFromTheStartExactly(local: Zone, steps: seq<Step>, end: State)
    requires MarksAreStored(steps) && Leads(INIT, local, steps, end)
    ensures InOrder(end) <==> AllAhead(INIT, local, steps)
  {
    OrderExactly(INIT, local, steps, end);
  }
}
