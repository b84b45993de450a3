/**
 What each step of a run is given, said of the events of the run.

 Nothing here speaks of the function that computes an event: a step's inputs are those of
 the pipeline, of the steps before it, and of the answers of the outside.
 */
module PipelineInputs {
  import opened Common
  import opened Selections
  import opened Pipeline
  import opened Steps
  import opened PipelineRun
  import L = PipelineLaws

  /** The nearest backup before the step at `i` went through, and this is its event. */
  ghost predicate IsNearestBackup(s: Setup, events: seq<Event>, i: nat, b: nat)
    requires i < |events| <= |s.steps|
  {
    && b < i && s.steps[b].Backup? && (forall j | b < j < i :: !s.steps[j].Backup?)
    && events[b].BackedUp? && events[b].artifact.Ok?
  }

  lemma NearestBackup(s: Setup, events: seq<Event>, i: nat) returns (b: nat)
    requires L.Ran(s, events) && i < |events| && LastBackup(s.steps, i).Some?
    ensures LastBackup(s.steps, i) == Some(b) && IsNearestBackup(s, events, i, b)
    ensures b in s.resolved && events[b].backup == s.resolved[b]
  {
    b := LastBackup(s.steps, i).value;
    L.Earlier(s, events, b, i);
    assert Does(s, events[..b], events[b]);
  }

  // ── Backups ──

  /** The list a backup starts from: that of its saved plan, which is for its database, or its own. */
  predicate IsSaved(world: World, step: Step, saved: seq<TableSelection>)
    requires step.Backup?
  {
    match step.planId
    case None => saved == step.selections
    case Some(id) => world.syncPlan(id) == Ok(Some(SavedPlan(step.database, saved)))
  }

  /**
   A backup dumps its own database of its own server, with the tables its list was
   completed to, into its directory.
   */
  lemma BackupIsAsWritten(name: string, s: Setup, events: seq<Event>, i: nat)
    requires L.Ran(s, events) && Prepared(s, name, s.steps, s.profiles, s.request, s.world)
    requires i < |events| && s.steps[i].Backup?
    ensures events[i].BackedUp? && events[i].source.id == s.steps[i].profileId
    ensures var e, step := events[i], s.steps[i];
      && e.backup.database == step.database
      && e.backup.outputDir == (if step.outputDir.Some? then step.outputDir.value else s.request.defaultDir)
      && e.artifact == s.world.backup(i, e.source, e.backup)
      && exists saved :: IsSaved(s.world, step, saved)
           && s.world.resolve(i, e.source, step.database, saved) == Ok(e.backup.selections)
  {
    assert Does(s, events[..i], events[i]);
    assert i in s.resolved && ResolvedAt(s.world, s.steps, s.profiles, s.request, i) == Ok(s.resolved[i]);
    var saved := SavedSelections(s.world, s.steps, i).value;
    assert IsSaved(s.world, s.steps[i], saved);
  }

  /** The saved plan of the step is gone, or is for another database now, or a question about it was not answered. */
  ghost predicate WhyNot(world: World, step: Step, source: Profile, i: nat, e: OpError)
    requires step.Backup?
  {
    match e
    case SyncPlanNotFound(id) => step.planId == Some(id) && world.syncPlan(id) == Ok(None)
    case TableSetMovedOn(n, expected, found) =>
      && n == i + 1 && expected == step.database && found != expected && step.planId.Some?
      && exists saved :: world.syncPlan(step.planId.value) == Ok(Some(SavedPlan(found, saved)))
    case Operation(reason) =>
      || (step.planId.Some? && world.syncPlan(step.planId.value) == Err(reason))
      || exists saved :: IsSaved(world, step, saved) && world.resolve(i, source, step.database, saved) == Err(reason)
    case _ => false
  }

  /** A pipeline whose backups cannot all be resolved is refused for the first of them, and for this. */
  lemma UnresolvedMeans(world: World, steps: seq<Step>, profiles: seq<Profile>, request: Request, i: nat, e: OpError)
    requires Known(steps, profiles) && FirstUnresolved(world, steps, profiles, request, i, e)
    ensures WhyNot(world, steps[i], ProfileOf(profiles, steps[i].profileId), i, e)
  {
    var saved := SavedSelections(world, steps, i);
    if saved.Ok? {
      assert IsSaved(world, steps[i], saved.value);
    } else if e.TableSetMovedOn? {
      var plan := world.syncPlan(steps[i].planId.value).value.value;
      assert plan == SavedPlan(plan.database, plan.selections);
    }
  }

  // ── Retention, off-site copies and drills ──

  /** Retention prunes the directory of the nearest backup, under its own policy. */
  lemma RetentionPrunesWhereTheBackupWent(s: Setup, events: seq<Event>, i: nat)
    requires L.Ran(s, events) && i < |events| && events[i].Retained?
    ensures s.steps[i].Retention? && events[i].policy == s.steps[i].policy
    ensures exists b: nat :: IsNearestBackup(s, events, i, b) && events[i].dir == events[b].backup.outputDir
    ensures events[i].removed == s.world.retain(i, events[i].dir, events[i].policy)
  {
    assert Does(s, events[..i], events[i]);
    L.EventKind(s, events[..i], events[i]);
    assert InPlace(s.steps, i);
    var b := NearestBackup(s, events, i);
  }

  /** An off-site copy is of the nearest backup. */
  lemma PushSendsTheNearestBackup(s: Setup, events: seq<Event>, i: nat)
    requires L.Ran(s, events) && i < |events| && s.steps[i].PushOffsite?
    ensures events[i].Pushed?
    ensures exists b: nat :: IsNearestBackup(s, events, i, b) && events[b].artifact == Ok(events[i].pushed)
    ensures events[i].results == s.world.push(i, events[i].pushed)
  {
    assert Does(s, events[..i], events[i]);
    assert InPlace(s.steps, i);
    var b := NearestBackup(s, events, i);
  }

  /** A drill restores from the directory it names, or where the nearest backup went, or the default one. */
  lemma DrillLooksWhereItSays(s: Setup, events: seq<Event>, i: nat)
    requires L.Ran(s, events) && i < |events| && s.steps[i].Drill?
    ensures events[i].Drilled? && events[i].dest.id == s.steps[i].profileId
    ensures match s.steps[i].artifactDir
      case Some(dir) => events[i].dir == dir
      case None =>
        || ((forall j | 0 <= j < i :: !s.steps[j].Backup?) && events[i].dir == s.request.defaultDir)
        || exists b: nat :: IsNearestBackup(s, events, i, b) && events[i].dir == events[b].backup.outputDir
    ensures events[i].report == s.world.drill(i, events[i].dest, events[i].dir, s.steps[i].deep)
  {
    assert Does(s, events[..i], events[i]);
    if LastBackup(s.steps, i).Some? {
      var b := NearestBackup(s, events, i);
    }
  }

  // ── Restores ──

  /** A restore goes to its own server under its own naming; from a file it replays that file, or the newest found. */
  lemma RestoreIsAsWritten(s: Setup, events: seq<Event>, i: nat)
    requires L.Ran(s, events) && i < |events| && s.steps[i].Restore?
    ensures match events[i]
      case Restored(dest, restore, target) =>
        && dest.id == s.steps[i].profileId && restore.naming == s.steps[i].naming
        && target == s.world.restore(i, dest, restore)
        && (match s.steps[i].source
            case NamedPath(path) => restore.artifact == path
            case NewestInDirectory(dir) => s.world.newest(i, dir) == Some(restore.artifact)
            case PreviousStep =>
              exists b: nat :: IsNearestBackup(s, events, i, b) && events[b].artifact == Ok(restore.artifact))
      case NothingFound(dir) => s.steps[i].source == NewestInDirectory(dir) && s.world.newest(i, dir) == None
      case _ => false
  {
    assert Does(s, events[..i], events[i]);
    assert InPlace(s.steps, i);
    if s.steps[i].source.PreviousStep? {
      var b := NearestBackup(s, events, i);
    }
  }

  // ── Masks and checks ──

  /** A mask is skipped exactly if nothing was planned for it: no rule has an effect, or no backup comes before. */
  lemma MaskRunsExactly(s: Setup, events: seq<Event>, i: nat)
    requires L.Ran(s, events) && i < |events| && s.steps[i].Mask?
    ensures events[i].MaskSkipped? <==> i !in s.coverages || s.coverages[i].None?
    ensures !events[i].MaskSkipped? ==>
      && events[i].Masked? && Some(events[i].coverage) == s.coverages[i]
      && events[i].columns == s.world.mask(i, events[i].on, events[i].database, events[i].coverage)
  {
    assert Does(s, events[..i], events[i]);
    assert InPlace(s.steps, i);
  }

  /** The table is in the list, in this mode. */
  predicate Lists(selections: seq<TableSelection>, mode: TableMode, table: string) {
    exists x <- selections :: x.name == table && x.mode == mode
  }

  predicate ChecksTable(check: VerifyRequest, backup: BackupRequest, table: string) {
    && (table in check.withData <==> Lists(backup.selections, SchemaAndData, table))
    && (table in check.schemaOnly <==> Lists(backup.selections, SchemaOnly, table))
  }

  lemma {:induction false} NamesAre(selections: seq<TableSelection>, mode: TableMode, table: string)
    ensures table in Names(selections, mode) <==> Lists(selections, mode, table)
  {
    if selections != [] {
      NamesAre(selections[1..], mode, table);
      assert selections == [selections[0]] + selections[1..];
    }
  }

  /** A check compares the tables the nearest backup took, with data or without, as deep as it says. */
  lemma VerifyChecksTheBackupsTables(s: Setup, events: seq<Event>, i: nat, table: string)
    requires L.Ran(s, events) && i < |events| && s.steps[i].Verify?
    ensures events[i].Verified? && events[i].verify.deep == s.steps[i].deep
    ensures exists b: nat :: IsNearestBackup(s, events, i, b) && ChecksTable(events[i].verify, events[b].backup, table)
    ensures events[i].report == s.world.verify(i, events[i].verify)
  {
    assert Does(s, events[..i], events[i]);
    assert InPlace(s.steps, i);
    var b := NearestBackup(s, events, i);
    NamesAre(s.resolved[b].selections, SchemaAndData, table);
    NamesAre(s.resolved[b].selections, SchemaOnly, table);
  }

  // ── What a completed run reports ──

  function Count(kind: Step -> bool, steps: seq<Step>, i: nat): nat
    requires i <= |steps|
  {
    if i == 0 then 0 else Count(kind, steps, i - 1) + if kind(steps[i - 1]) then 1 else 0
  }

  /** The answer went through, and stands at this place of the list. */
  predicate StandsAt(list: seq<string>, k: nat, answer: Result<string, string>) {
    k < |list| && answer == Ok(list[k])
  }

  predicate IsBackup(step: Step) { step.Backup? }

  predicate IsRestore(step: Step) { step.Restore? }

  /** What the step at `i` made stands where its place among the steps of its kind says. */
  predicate Reported(steps: seq<Step>, events: seq<Event>, i: nat, artifacts: seq<Path>, databases: seq<string>)
    requires i < |events| <= |steps|
  {
    && (IsBackup(steps[i]) ==>
          && events[i].BackedUp?
          && StandsAt(artifacts, Count(IsBackup, steps, i), events[i].artifact))
    && (IsRestore(steps[i]) ==>
          && events[i].Restored?
          && StandsAt(databases, Count(IsRestore, steps, i), events[i].target))
  }

  lemma {:induction false} ListsByPosition(steps: seq<Step>, events: seq<Event>, i: nat)
    requires AllFit(steps, events) && i < |events|
    ensures |Artifacts(events)| == Count(IsBackup, steps, |events|)
    ensures |Databases(events)| == Count(IsRestore, steps, |events|)
    ensures Reported(steps, events, i, Artifacts(events), Databases(events))
    decreases |events|
  {
    var n := |events| - 1;
    var before := events[..n];
    assert FitsStep(steps[n], events[n]);
    if n > 0 {
      ListsByPosition(steps, before, if i < n then i else n - 1);
    }
  }

  /** The k-th artifact reported is that of the k-th backup, the k-th database that of the k-th restore, and no more. */
  lemma OutcomeListsWhatWasMade(s: Setup, events: seq<Event>, calls: seq<Call>, outcome: Outcome, i: nat)
    requires Ready(s) && Ended(s, events, calls, Completed(outcome)) && i < |s.steps|
    ensures |events| == |s.steps| && Reported(s.steps, events, i, outcome.artifacts, outcome.databases)
    ensures |outcome.artifacts| == Count(IsBackup, s.steps, |s.steps|)
    ensures |outcome.databases| == Count(IsRestore, s.steps, |s.steps|)
  {
    ListsByPosition(s.steps, events, i);
  }

  /** Some retention step of the run pruned it. */
  predicate Pruned(events: seq<Event>, path: Path) {
    exists e <- events :: e.Retained? && path in e.removed
  }

  lemma {:induction false} RemovedIsPruned(events: seq<Event>, path: Path)
    ensures path in Removed(events) <==> Pruned(events, path)
  {
    if events != [] {
      RemovedIsPruned(events[..|events| - 1], path);
      assert events == events[..|events| - 1] + [events[|events| - 1]];
    }
  }

  lemma {:induction false} MaskedByPosition(events: seq<Event>, n: nat)
    requires n <= |events|
    ensures MaskedBefore(events[..n]) ==
      match L.LastMasked(events, n) case None => None case Some(m) => Some(events[m].columns.value)
  {
    if n > 0 {
      assert events[..n][..n - 1] == events[..n - 1];
      MaskedByPosition(events, n - 1);
    }
  }

  /** The columns reported masked are those of the latest mask that ran; the files reported removed, those pruned. */
  lemma OutcomeSaysWhatWasMaskedAndPruned(s: Setup, events: seq<Event>, calls: seq<Call>, outcome: Outcome, path: Path)
    requires Ready(s) && Ended(s, events, calls, Completed(outcome))
    ensures path in outcome.removed <==> Pruned(events, path)
    ensures outcome.masking ==
      match L.LastMasked(events, |events|) case None => None case Some(m) => Some(events[m].columns.value)
  {
    RemovedIsPruned(events, path);
    assert events[..|events|] == events;
    MaskedByPosition(events, |events|);
  }

  /** The verdict of a run: that of the latest verify, or else of the first drill. */
  predicate VerdictIs(steps: seq<Step>, events: seq<Event>, verdict: Option<Report>)
    requires |events| == |steps|
  {
    match L.LastVerify(steps, |steps|)
    case Some(v) => events[v].Verified? && verdict.Some? && events[v].report == Ok(verdict.value)
    case None =>
      match L.FirstDrill(steps, |steps|)
      case Some(d) => events[d].Drilled? && verdict.Some? && events[d].report == Ok(verdict.value)
      case None => verdict.None?
  }

  predicate ResultsAre(steps: seq<Step>, events: seq<Event>, results: seq<PushResult>)
    requires |events| == |steps|
  {
    match L.LastPush(steps, |steps|)
    case Some(p) => events[p].Pushed? && events[p].results == Ok(results)
    case None => results == []
  }

  lemma ChecksAreLatest(steps: seq<Step>, events: seq<Event>)
    requires AllFit(steps, events) && |events| == |steps|
    ensures VerdictIs(steps, events, VerdictBefore(events)) && ResultsAre(steps, events, PushedBefore(events))
  {
    L.VerifiedByPosition(steps, events);
    L.PushedByPosition(steps, events);
    L.DrilledByPosition(steps, events);
    forall i | 0 <= i < |events| ensures FitsStep(steps[i], events[i]) {
    }
  }

  /** A completed run reports the verdict of its latest verify, or else of its first drill, and its latest push. */
  lemma OutcomeSaysWhatWasChecked(s: Setup, events: seq<Event>, calls: seq<Call>, outcome: Outcome)
    requires Ready(s) && Ended(s, events, calls, Completed(outcome))
    ensures |events| == |s.steps|
    ensures VerdictIs(s.steps, events, outcome.verification) && ResultsAre(s.steps, events, outcome.offsite)
  {
    ChecksAreLatest(s.steps, events);
  }
}
