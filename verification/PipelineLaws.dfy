/**
 What holds of every run of a pipeline.

 The lemmas are about `events`, the record of a run: `Ran` holds of the events of any run,
 however it ended.
 */
module PipelineLaws {
  import opened Common
  import opened Selections
  import opened Pipeline
  import opened Steps
  import opened PipelineRun
  import Arming

  /** Each step did what its position calls for; only the last may have failed. */
  ghost predicate Ran(s: Setup, events: seq<Event>) {
    && Ready(s) && |events| <= |s.steps|
    && (forall i | 0 <= i < |events| :: Does(s, events[..i], events[i]))
  }

  lemma EndedRan(s: Setup, events: seq<Event>, calls: seq<Call>, end: Finish)
    requires Ready(s) && Ended(s, events, calls, end)
    ensures Ran(s, events)
  {
    EndedEither(s, events, calls, end);
    EitherRan(s, events);
  }

  /** Every step went through, or all but the last. */
  ghost predicate Either(s: Setup, events: seq<Event>)
    requires Ready(s)
  {
    || Walked(s, events)
    || (events != [] && Walked(s, events[..|events| - 1]) && Does(s, events[..|events| - 1], events[|events| - 1]))
  }

  lemma EitherRan(s: Setup, events: seq<Event>)
    requires Ready(s) && Either(s, events)
    ensures Ran(s, events)
  {
    if Walked(s, events) {
      WalkedRan(s, events);
    } else {
      RanOn(s, events[..|events| - 1], events[|events| - 1], events);
    }
  }

  lemma WalkedRan(s: Setup, events: seq<Event>)
    requires Ready(s) && Walked(s, events)
    ensures Ran(s, events)
  {
  }

  lemma EndedEither(s: Setup, events: seq<Event>, calls: seq<Call>, end: Finish)
    requires Ready(s) && Ended(s, events, calls, end)
    ensures Either(s, events)
  {
  }

  lemma RanOn(s: Setup, before: seq<Event>, e: Event, events: seq<Event>)
    requires Ready(s) && Walked(s, before) && Does(s, before, e) && events == before + [e]
    ensures Ran(s, events)
  {
    ExtendAll((b, x) => Ready(s) && Does(s, b, x), before, e);
  }

  /** The step at `j` and the event it left, as seen from a later step `i`. */
  lemma Earlier(s: Setup, events: seq<Event>, j: nat, i: nat)
    requires Ran(s, events) && j < i < |events|
    ensures events[..i][j] == events[j] && FitsStep(s.steps[j], events[j])
  {
    assert Does(s, events[..i], events[i]);
  }

  // ── What a restore is given ──

  /**
   A restore of the previous step replays the artifact of the nearest earlier backup, into
   a server of the engine that backup came from.
   */
  lemma PreviousStepReplaysNearestBackup(name: string, s: Setup, events: seq<Event>, i: nat)
    requires Ran(s, events) && Runnable(name, s.steps, s.profiles) && i < |events|
    requires s.steps[i].Restore? && s.steps[i].source.PreviousStep?
    ensures LastBackup(s.steps, i).Some? && events[i].Restored?
    ensures var b := LastBackup(s.steps, i).value;
      && events[b].BackedUp? && events[b].artifact == Ok(events[i].restore.artifact)
      && events[b].source.id == s.steps[b].profileId && events[i].dest.id == s.steps[i].profileId
      && events[i].dest.engine == events[b].source.engine
      && events[i].restore.naming == s.steps[i].naming
  {
    assert Does(s, events[..i], events[i]);
    assert InPlace(s.steps, i);
    var b := LastBackup(s.steps, i).value;
    Earlier(s, events, b, i);
    assert Does(s, events[..b], events[b]);
    assert EnginesAgree(s.steps, s.profiles, i);
  }

  lemma {:induction false} NthTarget(steps: seq<Step>, i: nat)
    requires i < |steps| && IsDestructive(steps[i])
    ensures var targets := Arming.DestructiveTargets(steps);
      DestructiveBefore(steps, i) < |targets| && targets[DestructiveBefore(steps, i)] == steps[i].naming.name
  {
    TargetsOfPrefix(steps, i);
    TargetsOfPrefix(steps, i + 1);
  }

  lemma {:induction false} TargetsOfPrefix(steps: seq<Step>, n: nat)
    requires n <= |steps|
    ensures |Arming.DestructiveTargets(steps[..n])| == DestructiveBefore(steps, n)
    ensures Arming.DestructiveTargets(steps[..n]) <= Arming.DestructiveTargets(steps)
    ensures n > 0 ==>
      (var more := if IsDestructive(steps[n - 1]) then [steps[n - 1].naming.name] else [];
       Arming.DestructiveTargets(steps[..n]) == Arming.DestructiveTargets(steps[..n - 1]) + more)
  {
    TargetsOfSum(steps[..n], steps[n..]);
    assert steps[..n] + steps[n..] == steps;
    if n > 0 {
      TargetsOfPrefix(steps, n - 1);
      TargetsOfSum(steps[..n - 1], [steps[n - 1]]);
      assert steps[..n - 1] + [steps[n - 1]] == steps[..n];
    }
  }

  lemma {:induction false} TargetsOfSum(a: seq<Step>, b: seq<Step>)
    ensures Arming.DestructiveTargets(a + b) == Arming.DestructiveTargets(a) + Arming.DestructiveTargets(b)
  {
    if a == [] {
      assert a + b == b;
    } else {
      assert (a + b)[1..] == a[1..] + b;
      TargetsOfSum(a[1..], b);
    }
  }

  /**
   Every destructive restore is handed its own target's name exactly when the confirmations
   begin with the names of the targets, in order; a restore that destroys nothing is handed none.
   */
  lemma ConfirmationsMatchExactly(steps: seq<Step>, confirmations: seq<string>)
    ensures (forall i | 0 <= i < |steps| && IsDestructive(steps[i]) ::
        ConfirmationAt(steps, confirmations, i) == Some(steps[i].naming.name))
      <==> Arming.DestructiveTargets(steps) <= confirmations
    ensures forall i | 0 <= i < |steps| && !IsDestructive(steps[i]) :: ConfirmationAt(steps, confirmations, i) == None
  {
    var targets := Arming.DestructiveTargets(steps);
    if targets <= confirmations {
      forall i | 0 <= i < |steps| && IsDestructive(steps[i])
        ensures ConfirmationAt(steps, confirmations, i) == Some(steps[i].naming.name)
      {
        NthTarget(steps, i);
      }
    }
    if forall i | 0 <= i < |steps| && IsDestructive(steps[i]) ::
      ConfirmationAt(steps, confirmations, i) == Some(steps[i].naming.name) {
      PrefixConfirmed(steps, confirmations, |steps|);
      assert steps[..|steps|] == steps;
    }
  }

  lemma {:induction false} PrefixConfirmed(steps: seq<Step>, confirmations: seq<string>, n: nat)
    requires n <= |steps|
    requires forall i | 0 <= i < |steps| && IsDestructive(steps[i]) ::
      ConfirmationAt(steps, confirmations, i) == Some(steps[i].naming.name)
    ensures Arming.DestructiveTargets(steps[..n]) <= confirmations
  {
    if n > 0 {
      PrefixConfirmed(steps, confirmations, n - 1);
      TargetsOfPrefix(steps, n);
      TargetsOfPrefix(steps, n - 1);
    }
  }

  lemma RestoreIsGiven(s: Setup, events: seq<Event>, i: nat)
    requires Ran(s, events) && i < |events| && events[i].Restored?
    ensures s.steps[i].Restore? && events[i].restore.confirmation == ConfirmationAt(s.steps, s.request.confirmations, i)
  {
    assert Does(s, events[..i], events[i]);
  }

  /** An armed pipeline, run unattended, hands each database it drops that database's own name. */
  lemma ArmedRunConfirmsEachTarget(s: Setup, events: seq<Event>, ack: Option<string>, i: nat)
    requires Ran(s, events) && i < |events| && events[i].Restored?
    requires Arming.IsArmed(ack, s.steps) && s.request.confirmations == Arming.Confirmations(ack)
    requires Arming.Recoverable(Arming.DestructiveTargets(s.steps))
    ensures events[i].restore.confirmation == if IsDestructive(s.steps[i]) then Some(s.steps[i].naming.name) else None
  {
    RestoreIsGiven(s, events, i);
    Arming.UnattendedRunHoldsEveryName(ack, s.steps);
    ConfirmationsMatchExactly(s.steps, s.request.confirmations);
  }

  // ── Masking ──

  /**
   What a mask rewrites, and drops if it fails, is what the most recent restore wrote, and that
   was not there before.
   */
  lemma MaskTouchesTheLatestRestore(name: string, s: Setup, events: seq<Event>, i: nat)
    requires Ran(s, events) && Runnable(name, s.steps, s.profiles) && i < |events| && events[i].Masked?
    ensures LastRestore(s.steps, i).Some?
    ensures var r := LastRestore(s.steps, i).value;
      && events[r].Restored? && events[r].target == Ok(events[i].database) && events[r].dest == events[i].on
      && !s.steps[r].naming.IntoExisting?
  {
    assert Does(s, events[..i], events[i]);
    assert InPlace(s.steps, i) && MaskIsSafe(s.steps, i);
    var r := LastRestore(s.steps, i).value;
    Earlier(s, events, r, i);
    assert Does(s, events[..r], events[r]);
  }

  /** The backup whose artifact a restore replays, if it replays one of this run. */
  function Replayed(steps: seq<Step>, r: nat): Option<nat>
    requires r < |steps| && steps[r].Restore?
  {
    if steps[r].source.PreviousStep? then LastBackup(steps, r) else None
  }

  /** Whether what the latest restore put in place came from the nearest backup. */
  predicate Paired(steps: seq<Step>, i: nat)
    requires i <= |steps| && LastRestore(steps, i).Some?
  {
    var r := LastRestore(steps, i).value;
    steps[r].source.PreviousStep? && forall j | r < j < i :: !steps[j].Backup?
  }

  lemma {:induction false} LastBackupUnmoved(steps: seq<Step>, r: nat, i: nat)
    requires r <= i <= |steps| && forall j | r <= j < i :: !steps[j].Backup?
    ensures LastBackup(steps, i) == LastBackup(steps, r)
  {
    if r < i {
      LastBackupUnmoved(steps, r, i - 1);
    }
  }

  lemma PairedExactly(steps: seq<Step>, i: nat)
    requires i <= |steps| && LastRestore(steps, i).Some? && LastBackup(steps, i).Some?
    requires forall j | 0 <= j < |steps| :: InPlace(steps, j)
    ensures Replayed(steps, LastRestore(steps, i).value) == LastBackup(steps, i) <==> Paired(steps, i)
  {
    var r := LastRestore(steps, i).value;
    if Paired(steps, i) {
      LastBackupUnmoved(steps, r, i);
    } else if steps[r].source.PreviousStep? {
      var j :| r < j < i && steps[j].Backup?;
      assert LastBackup(steps, i).value >= j;
    }
  }

  /** The mask's coverage is what planning its rules against that backup answered. */
  predicate PlannedFor(world: World, step: Step, i: nat, masked: Event, backup: Event)
    requires step.Mask? && masked.Masked?
  {
    && backup.BackedUp?
    && world.coverage(i, backup.source, backup.backup.database, step.rules, backup.backup.selections)
       == Ok(Some(masked.coverage))
  }

  /**
   Masking is planned against the selections of the nearest backup and run on the target of
   the latest restore. Those belong together exactly when the restore replays a backup of
   this run and no backup comes between the restore and the mask.
   */
  lemma MaskPlannedForItsRestoreExactly(name: string, s: Setup, events: seq<Event>, i: nat)
    requires Ran(s, events) && Runnable(name, s.steps, s.profiles)
    requires CoversAs(s.world, s.steps, s.profiles, s.resolved, |s.steps|, s.coverages)
    requires i < |events| && events[i].Masked?
    ensures s.steps[i].Mask? && LastRestore(s.steps, i).Some? && LastBackup(s.steps, i).Some?
    ensures var b := LastBackup(s.steps, i).value;
      && PlannedFor(s.world, s.steps[i], i, events[i], events[b])
      && (Replayed(s.steps, LastRestore(s.steps, i).value) == Some(b) <==> Paired(s.steps, i))
  {
    assert Does(s, events[..i], events[i]);
    assert InPlace(s.steps, i);
    assert i in s.coverages;
    var b := LastBackup(s.steps, i).value;
    Earlier(s, events, b, i);
    assert Does(s, events[..b], events[b]);
    PairedExactly(s.steps, i);
  }

  /** A verify step compares the nearest backup's source with the latest restore's target. */
  lemma VerifyComparesExactly(name: string, s: Setup, events: seq<Event>, i: nat)
    requires Ran(s, events) && Runnable(name, s.steps, s.profiles) && i < |events| && s.steps[i].Verify?
    ensures LastRestore(s.steps, i).Some? && LastBackup(s.steps, i).Some? && events[i].Verified?
    ensures var b, r := LastBackup(s.steps, i).value, LastRestore(s.steps, i).value;
      && events[b].BackedUp? && events[r].Restored?
      && events[i].verify.source == events[b].source && events[i].verify.sourceDatabase == events[b].backup.database
      && events[i].verify.dest == events[r].dest && events[r].target == Ok(events[i].verify.destDatabase)
      && (Replayed(s.steps, r) == Some(b) <==> Paired(s.steps, i))
  {
    assert Does(s, events[..i], events[i]);
    assert InPlace(s.steps, i);
    var b, r := LastBackup(s.steps, i).value, LastRestore(s.steps, i).value;
    Earlier(s, events, b, i);
    Earlier(s, events, r, i);
    assert Does(s, events[..b], events[b]);
    assert Does(s, events[..r], events[r]);
    PairedExactly(s.steps, i);
  }

  // Two backups around one restore: valid, yet the mask and the verify belong to the second.
  const ALL_OF_A := Backup(0, "a", None, [], None)
  const ALL_OF_B := Backup(0, "b", None, [], None)
  const INTO_NEW := Restore(0, PreviousStep, NewTimestamped("copy"))
  const HIDE_EMAIL := Mask([MaskRule("users", "email")])
  const UNPAIRED := [ALL_OF_A, INTO_NEW, ALL_OF_B, HIDE_EMAIL, Verify(false)]

  lemma ValidatedButUnpaired()
    ensures WellFormed("nightly", UNPAIRED)
    ensures LastRestore(UNPAIRED, 3) == Some(1) && Replayed(UNPAIRED, 1) == Some(0)
    ensures LastBackup(UNPAIRED, 3) == Some(2) && LastBackup(UNPAIRED, 4) == Some(2)
    ensures LastRestore(UNPAIRED, 4) == Some(1)
    ensures !Paired(UNPAIRED, 3) && !Paired(UNPAIRED, 4)
  {
    var p := UNPAIRED;
    assert LastBackup(p, 0) == None && LastRestore(p, 0) == None && LastRestore(p, 1) == None;
    assert LastBackup(p, 1) == Some(0) && LastBackup(p, 2) == Some(0) && LastBackup(p, 3) == Some(2);
    assert LastRestore(p, 2) == Some(1) && LastRestore(p, 3) == Some(1) && LastRestore(p, 4) == Some(1);
    assert LastBackup(p, 4) == Some(2);
    assert p[2].Backup?;
  }

  /** The latest mask step before `i` that ran. */
  function LastMasked(events: seq<Event>, i: nat): (r: Option<nat>)
    requires i <= |events|
    ensures r.Some? ==> r.value < i && events[r.value].Masked? && events[r.value].columns.Ok?
    ensures r.Some? ==> forall j | r.value < j < i :: !(events[j].Masked? && events[j].columns.Ok?)
    ensures r.None? ==> forall j | 0 <= j < i :: !(events[j].Masked? && events[j].columns.Ok?)
  {
    if i == 0 then None
    else if events[i - 1].Masked? && events[i - 1].columns.Ok? then Some(i - 1)
    else LastMasked(events, i - 1)
  }

  lemma {:induction false} CoverageIsOfLastMasked(events: seq<Event>, i: nat)
    requires i <= |events|
    ensures CoverageBefore(events[..i]) ==
      match LastMasked(events, i) case None => None case Some(m) => Some(events[m].coverage)
  {
    if i > 0 {
      assert events[..i][..i - 1] == events[..i - 1];
      CoverageIsOfLastMasked(events, i - 1);
    }
  }

  /**
   The tables a verify step exempts are those of the latest mask that ran. Both steps speak
   of the same restore exactly when nothing was restored in between, and then that mask was
   run in the database being checked.
   */
  lemma VerifyExemptsTheLatestMask(name: string, s: Setup, events: seq<Event>, i: nat)
    requires Ran(s, events) && Runnable(name, s.steps, s.profiles) && i < |events| && s.steps[i].Verify?
    ensures events[i].Verified?
    ensures match LastMasked(events, i)
      case None => events[i].verify.masked == {}
      case Some(m) =>
        && events[i].verify.masked == Tables(Some(events[m].coverage))
        && (LastRestore(s.steps, m) == LastRestore(s.steps, i) <==> forall j | m <= j < i :: !s.steps[j].Restore?)
        && (LastRestore(s.steps, m) == LastRestore(s.steps, i) ==>
              events[m].database == events[i].verify.destDatabase && events[m].on == events[i].verify.dest)
  {
    assert Does(s, events[..i], events[i]);
    CoverageIsOfLastMasked(events, i);
    VerifyComparesExactly(name, s, events, i);
    var masked := LastMasked(events, i);
    if masked.Some? {
      var m := masked.value;
      MaskTouchesTheLatestRestore(name, s, events, m);
      if forall j | m <= j < i :: !s.steps[j].Restore? {
        LastRestoreUnmoved(s.steps, m, i);
      }
    }
  }

  lemma {:induction false} LastRestoreUnmoved(steps: seq<Step>, r: nat, i: nat)
    requires r <= i <= |steps| && forall j | r <= j < i :: !steps[j].Restore?
    ensures LastRestore(steps, i) == LastRestore(steps, r)
  {
    if r < i {
      LastRestoreUnmoved(steps, r, i - 1);
    }
  }

  /**
   A cancellation seen before a step stops that step and every later one. When it falls
   between a restore and its mask, the restored database stays, with nothing masked in it.
   */
  lemma CancelledBetweenRestoreAndMask(s: Setup, events: seq<Event>, calls: seq<Call>, end: Finish, i: nat)
    requires Ready(s) && Ended(s, events, calls, end) && i < |s.steps| && s.world.cancelled(i)
    ensures |events| <= i
    ensures |events| == i > 0 && s.steps[i - 1].Restore? && s.steps[i].Mask? && Failure(events[i - 1]).None? ==>
      && end == Stopped(Interrupted) && events[i - 1].Restored? && events[i - 1].target.Ok?
  {
    EndedRan(s, events, calls, end);
    if |events| == i > 0 && Failure(events[i - 1]).None? {
      assert Does(s, events[..i - 1], events[i - 1]);
      DoneFits(s, events[..i - 1], events[i - 1]);
    }
  }

  // ── What is reported, and what retention goes by ──

  function LastVerify(steps: seq<Step>, i: nat): (r: Option<nat>)
    requires i <= |steps|
    ensures r.Some? ==> r.value < i && steps[r.value].Verify? && forall j | r.value < j < i :: !steps[j].Verify?
    ensures r.None? ==> forall j | 0 <= j < i :: !steps[j].Verify?
  {
    LastWhere((s: Step) => s.Verify?, steps, i)
  }

  function LastPush(steps: seq<Step>, i: nat): (r: Option<nat>)
    requires i <= |steps|
    ensures r.Some? ==>
      r.value < i && steps[r.value].PushOffsite? && forall j | r.value < j < i :: !steps[j].PushOffsite?
    ensures r.None? ==> forall j | 0 <= j < i :: !steps[j].PushOffsite?
  {
    LastWhere((s: Step) => s.PushOffsite?, steps, i)
  }

  function FirstDrill(steps: seq<Step>, i: nat): (r: Option<nat>)
    requires i <= |steps|
    ensures r.Some? ==> r.value < i && steps[r.value].Drill? && forall j | 0 <= j < r.value :: !steps[j].Drill?
    ensures r.None? ==> forall j | 0 <= j < i :: !steps[j].Drill?
    decreases i
  {
    if i == 0 then None
    else if FirstDrill(steps, i - 1).Some? then FirstDrill(steps, i - 1)
    else if steps[i - 1].Drill? then Some(i - 1) else None
  }

  /** Every check known after these events passed: the latest verify, or else the first drill, and the latest push. */
  predicate ChecksPassed(steps: seq<Step>, events: seq<Event>)
    requires AllFit(steps, events)
  {
    && (match LastVerify(steps, |events|)
        case Some(v) => FitsStep(steps[v], events[v]) && events[v].report.value.failures == 0
        case None =>
          match FirstDrill(steps, |events|)
          case Some(d) => FitsStep(steps[d], events[d]) && events[d].report.value.failures == 0
          case None => true)
    && match LastPush(steps, |events|)
       case Some(p) => FitsStep(steps[p], events[p]) && forall x <- events[p].results.value :: x.error.None?
       case None => true
  }

  lemma {:induction false} VerifiedByPosition(steps: seq<Step>, events: seq<Event>)
    requires AllFit(steps, events)
    ensures VerifiedBefore(events) ==
      match LastVerify(steps, |events|) case None => None case Some(v) => Some(events[v].report.value)
  {
    if events != [] {
      VerifiedByPosition(steps, events[..|events| - 1]);
      assert FitsStep(steps[|events| - 1], events[|events| - 1]);
    }
  }

  lemma {:induction false} PushedByPosition(steps: seq<Step>, events: seq<Event>)
    requires AllFit(steps, events)
    ensures PushedBefore(events) ==
      match LastPush(steps, |events|) case None => [] case Some(p) => events[p].results.value
  {
    if events != [] {
      PushedByPosition(steps, events[..|events| - 1]);
      assert FitsStep(steps[|events| - 1], events[|events| - 1]);
    }
  }

  lemma {:induction false} DrilledByPosition(steps: seq<Step>, events: seq<Event>)
    requires AllFit(steps, events)
    ensures DrilledBefore(events) ==
      match FirstDrill(steps, |events|) case None => None case Some(d) => Some(events[d].report.value)
  {
    if events != [] {
      var before, e := events[..|events| - 1], events[|events| - 1];
      assert events == before + [e];
      DrilledByPosition(steps, before);
      DrilledOn(before, e);
      assert FitsStep(steps[|before|], e);
    }
  }

  lemma ChecksByPosition(steps: seq<Step>, events: seq<Event>)
    requires AllFit(steps, events)
    ensures MayDelete(events) <==> ChecksPassed(steps, events)
    ensures FullySucceeded(OutcomeOf(events)) <==> ChecksPassed(steps, events)
  {
    VerifiedByPosition(steps, events);
    PushedByPosition(steps, events);
    DrilledByPosition(steps, events);
  }

  /** Retention deletes exactly when the checks it can know of passed; otherwise every backup is kept. */
  lemma RetentionDeletesExactly(s: Setup, events: seq<Event>, i: nat)
    requires Ran(s, events) && i < |events| && s.steps[i].Retention?
    ensures AllFit(s.steps, events[..i])
    ensures if ChecksPassed(s.steps, events[..i]) then events[i].Retained? else events[i].RetentionSkipped?
  {
    assert Does(s, events[..i], events[i]);
    RetentionAt(s, events[..i], i);
    ChecksByPosition(s.steps, events[..i]);
  }

  lemma RetentionAt(s: Setup, before: seq<Event>, i: nat)
    requires Ready(s) && i == |before| < |s.steps| && AllFit(s.steps, before) && s.steps[i].Retention?
    ensures if MayDelete(before) then EventAt(s, before).Retained? else EventAt(s, before).RetentionSkipped?
  {
    assert InPlace(s.steps, i);
  }

  /**
   A completed run reports success exactly when the same checks passed: an earlier failed
   verify or push is forgotten once a later one passed, and a failed drill is not reported
   at all when the run verified anything.
   */
  lemma SuccessExactly(s: Setup, events: seq<Event>, calls: seq<Call>, end: Finish)
    requires Ready(s) && Ended(s, events, calls, end) && end.Completed?
    ensures AllFit(s.steps, events) && |events| == |s.steps|
    ensures FullySucceeded(end.outcome) <==> ChecksPassed(s.steps, events)
  {
    ChecksByPosition(s.steps, events);
  }

  // ── The recorder ──

  lemma EventKind(s: Setup, events: seq<Event>, e: Event)
    requires Ready(s) && Does(s, events, e)
    ensures Failure(e).None? ==> FitsStep(s.steps[|events|], e)
    ensures match e
      case NothingFound(_) => true
      case MaskSkipped => s.steps[|events|].Mask?
      case RetentionSkipped => s.steps[|events|].Retention?
      case BackedUp(_, _, _) => s.steps[|events|].Backup?
      case Restored(_, _, _) => s.steps[|events|].Restore?
      case Masked(_, _, _, _) => s.steps[|events|].Mask?
      case Verified(_, _) => s.steps[|events|].Verify?
      case Pushed(_, _) => s.steps[|events|].PushOffsite?
      case Retained(_, _, _) => s.steps[|events|].Retention?
      case Drilled(_, _, _) => s.steps[|events|].Drill?
  {
    assert InPlace(s.steps, |events|);
  }

  lemma CallsFollow(s: Setup, events: seq<Event>, e: Event)
    requires Ready(s) && Does(s, events, e)
    ensures var calls := CallsOf(s.world, |events|, e);
      && Follows(Kinds(s.steps), |events|, false, calls)
      && (Failure(e).None? ==> CursorAfter(|events|, calls) == |events| + 1 && !OpenAfter(false, calls))
  {
    EventKind(s, events, e);
    var i := |events|;
    CallsFollowKind(Kinds(s.steps), s.world, i, KindOf(s.steps[i]), e);
  }

  /** Nested operations, then possibly the end of the step they run in. */
  lemma {:induction false} ClosingFollows(plan: seq<StepKind>, cursor: nat, calls: seq<Call>)
    requires forall k | 0 <= k < |calls| - 1 :: calls[k].Nested?
    requires calls != [] ==> calls[|calls| - 1].Nested? || calls[|calls| - 1].Done?
    ensures Follows(plan, cursor, true, calls) && CursorAfter(cursor, calls) == cursor
    ensures OpenAfter(true, calls) <==> calls == [] || !calls[|calls| - 1].Done?
  {
    if |calls| == 1 {
      assert calls[1..] == [];
    } else if calls != [] {
      ClosingFollows(plan, cursor, calls[1..]);
    }
  }

  lemma CallsFollowKind(plan: seq<StepKind>, world: World, i: nat, kind: StepKind, e: Event)
    requires i < |plan| && plan[i] == kind
    requires !e.NothingFound? ==> CallsOf(world, i, e)[0] in {Begin(kind), Skip(kind)}
    ensures var calls := CallsOf(world, i, e);
      && Follows(plan, i, false, calls)
      && (Failure(e).None? ==> CursorAfter(i, calls) == i + 1 && !OpenAfter(false, calls))
  {
    var calls := CallsOf(world, i, e);
    if calls != [] && calls[0].Begin? {
      ClosingFollows(plan, i + 1, calls[1..]);
    }
  }

  lemma {:induction false} AllCallsFollow(s: Setup, events: seq<Event>)
    requires Ready(s) && Walked(s, events)
    ensures var calls := AllCalls(s.world, events);
      Follows(Kinds(s.steps), 0, false, calls) && CursorAfter(0, calls) == |events| && !OpenAfter(false, calls)
  {
    if events != [] {
      var before, e := events[..|events| - 1], events[|events| - 1];
      assert forall i | 0 <= i < |before| :: before[..i] == events[..i];
      AllCallsFollow(s, before);
      CallsFollow(s, before, e);
      assert FitsStep(s.steps[|before|], e);
      FollowsThrough(Kinds(s.steps), 0, false, AllCalls(s.world, before), CallsOf(s.world, |before|, e));
    }
  }

  /** How the row of a step that went through reads. */
  function VerdictOf(e: Event): StepOutcome {
    if e.MaskSkipped? || e.RetentionSkipped? then Skipped else Success
  }

  lemma VerdictsOfEvent(world: World, i: nat, e: Event)
    requires Failure(e).None? && !e.NothingFound?
    ensures Verdicts(CallsOf(world, i, e)) == [VerdictOf(e)]
  {
    var calls := CallsOf(world, i, e);
    if e.Drilled? && world.nested(i).Some? {
      assert calls[1..][1..] == [Done];
    } else if !e.MaskSkipped? && !e.RetentionSkipped? {
      assert calls[1..] == [Done];
    }
    assert [Done][1..] == [] && [Success] + [] == [Success];
  }

  lemma OneMoreVerdict(s: Setup, before: seq<Event>, e: Event)
    requires |before| < |s.steps| && FitsStep(s.steps[|before|], e)
    ensures Verdicts(AllCalls(s.world, before + [e])) == Verdicts(AllCalls(s.world, before)) + [VerdictOf(e)]
  {
    VerdictsOfEvent(s.world, |before|, e);
    AllCallsOn(s.world, before, e);
    VerdictsOfSum(AllCalls(s.world, before), CallsOf(s.world, |before|, e));
  }

  function VerdictsOn(events: seq<Event>): (r: seq<StepOutcome>)
    ensures |r| == |events| && forall i | 0 <= i < |events| :: r[i] == VerdictOf(events[i])
  {
    if events == [] then [] else VerdictsOn(events[..|events| - 1]) + [VerdictOf(events[|events| - 1])]
  }

  lemma {:induction false} VerdictsOfRun(s: Setup, events: seq<Event>)
    requires AllFit(s.steps, events)
    ensures Verdicts(AllCalls(s.world, events)) == VerdictsOn(events)
  {
    if events != [] {
      var before, e := events[..|events| - 1], events[|events| - 1];
      assert events == before + [e];
      VerdictsOfRun(s, before);
      OneMoreVerdict(s, before, e);
    }
  }

  /**
   On every path the k-th step begun or skipped has the k-th planned kind. So the rows are
   always settled up to the step under way and untouched after it; a completed run has
   settled them all, as a success, or as skipped where the step had nothing to do.
   */
  lemma RowsFollowTheRun(s: Setup, events: seq<Event>, calls: seq<Call>, end: Finish, earlier: seq<Row>)
    requires Ready(s) && Ended(s, events, calls, end)
    ensures Follows(Kinds(s.steps), 0, false, calls)
    ensures var started := StartOn(Book(earlier, None), Kinds(s.steps));
      var book := Replay(started.0, started.1, calls).1;
      && Shape(Kinds(s.steps), CursorAfter(0, calls), OpenAfter(false, calls), book)
      && (end.Completed? ==> forall i | 0 <= i < |s.steps| :: book.rows[i].outcome == Some(VerdictOf(events[i])))
  {
    if end.Completed? {
      VerdictsOfRun(s, events);
    }
    if Walked(s, events) && calls == AllCalls(s.world, events) {
      AllCallsFollow(s, events);
    } else {
      var before, e := events[..|events| - 1], events[|events| - 1];
      AllCallsFollow(s, before);
      CallsFollow(s, before, e);
      FollowsThrough(Kinds(s.steps), 0, false, AllCalls(s.world, before), CallsOf(s.world, |before|, e));
    }
    RowsOfOperation(earlier, Kinds(s.steps), calls);
  }
}
