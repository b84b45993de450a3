/**
 Which pipelines can run to their end.

 Validation looks at the steps and the connections. A restore asks for more when it runs:
 a typed name, which the pipeline hands to its destructive steps alone. And a backup that
 names a saved plan needs the plan to be for its own database.
 */
module PipelineEnds {
  import opened Common
  import opened Text
  import opened Pipeline
  import opened Steps
  import opened PipelineRun
  import opened PipelineLaws
  import Arming

  // ── What a restore demands ──

  predicate NeedsConfirmation(dest: Profile, naming: TargetNaming) {
    naming.DropAndRecreate? || (dest.production && !naming.NewTimestamped?)
  }

  /** What `RestoreRequest::validate` and `TargetNaming::resolve` promise of a restore that succeeds. */
  ghost predicate RestoresAsDocumented(world: World) {
    forall i, dest, request | world.restore(i, dest, request).Ok? && !request.naming.NewTimestamped? ::
      && world.restore(i, dest, request).value == request.naming.name
      && (NeedsConfirmation(dest, request.naming) ==> request.confirmation == Some(request.naming.name))
  }

  /** Nothing is dropped and recreated unless its own name was the confirmation at its own place. */
  lemma DroppedOnlyWhenNamed(s: Setup, events: seq<Event>, i: nat)
    requires PipelineLaws.Ran(s, events) && RestoresAsDocumented(s.world) && i < |events|
    requires IsDestructive(s.steps[i]) && events[i].Restored? && events[i].target.Ok?
    ensures events[i].target.value == s.steps[i].naming.name
    ensures DestructiveBefore(s.steps, i) < |s.request.confirmations|
    ensures s.request.confirmations[DestructiveBefore(s.steps, i)] == s.steps[i].naming.name
  {
    assert Does(s, events[..i], events[i]);
  }

  lemma ProductionIntoExistingIsRefused(s: Setup, events: seq<Event>, i: nat)
    requires PipelineLaws.Ran(s, events) && RestoresAsDocumented(s.world)
    requires i < |events| && s.steps[i].Restore? && s.steps[i].naming.IntoExisting?
    requires ProfileOf(s.profiles, s.steps[i].profileId).production
    ensures Failure(events[i]).Some?
  {
    assert Does(s, events[..i], events[i]);
  }

  // ── Exactly the pipelines that can complete ──

  /** Every restore that needs a typed name is handed its own. */
  predicate AllConfirmed(steps: seq<Step>, profiles: seq<Profile>, confirmations: seq<string>)
    requires Known(steps, profiles)
  {
    forall i | 0 <= i < |steps| && steps[i].Restore? :: Confirmed(steps, profiles, confirmations, i)
  }

  predicate Confirmed(steps: seq<Step>, profiles: seq<Profile>, confirmations: seq<string>, i: nat)
    requires Known(steps, profiles) && i < |steps| && steps[i].Restore?
  {
    NeedsConfirmation(ProfileOf(profiles, steps[i].profileId), steps[i].naming) ==>
      ConfirmationAt(steps, confirmations, i) == Some(steps[i].naming.name)
  }

  /** No restore into a database of a production server that is there already. */
  predicate SparesProduction(steps: seq<Step>, profiles: seq<Profile>)
    requires Known(steps, profiles)
  {
    forall i | 0 <= i < |steps| && steps[i].Restore? && steps[i].naming.IntoExisting? ::
      !ProfileOf(profiles, steps[i].profileId).production
  }

  /** Backups that name one saved plan are of one database. */
  predicate PlansAgree(steps: seq<Step>) {
    forall i, j | 0 <= i < j < |steps| && steps[i].Backup? && steps[j].Backup? && steps[i].planId.Some?
      && steps[i].planId == steps[j].planId :: steps[i].database == steps[j].database
  }

  /** Some world in which restores behave as documented lets the pipeline run to its end. */
  ghost predicate CanComplete(name: string, steps: seq<Step>, profiles: seq<Profile>, request: Request) {
    exists s: Setup, events, calls, outcome :: Prepared(s, name, steps, profiles, request, s.world)
      && RestoresAsDocumented(s.world) && CompletedIn(s, events, calls, outcome)
  }

  ghost predicate CompletedIn(s: Setup, events: seq<Event>, calls: seq<Call>, outcome: Outcome) {
    Ready(s) && Ended(s, events, calls, Completed(outcome))
  }

  lemma ConfirmedExactly(steps: seq<Step>, profiles: seq<Profile>, confirmations: seq<string>)
    requires Known(steps, profiles)
    ensures AllConfirmed(steps, profiles, confirmations) <==>
      SparesProduction(steps, profiles) && Arming.DestructiveTargets(steps) <= confirmations
  {
    ConfirmationsMatchExactly(steps, confirmations);
    if AllConfirmed(steps, profiles, confirmations) {
      forall i | 0 <= i < |steps| && IsDestructive(steps[i])
        ensures ConfirmationAt(steps, confirmations, i) == Some(steps[i].naming.name)
      {
        assert Confirmed(steps, profiles, confirmations, i);
      }
      forall i | 0 <= i < |steps| && steps[i].Restore? && steps[i].naming.IntoExisting?
        ensures !ProfileOf(profiles, steps[i].profileId).production
      {
        assert Confirmed(steps, profiles, confirmations, i);
      }
    }
  }

  // ── What completed was confirmed ──

  lemma CompletedWasConfirmed(s: Setup, events: seq<Event>, calls: seq<Call>, outcome: Outcome)
    requires CompletedIn(s, events, calls, outcome) && RestoresAsDocumented(s.world)
    ensures AllConfirmed(s.steps, s.profiles, s.request.confirmations)
  {
    EndedRan(s, events, calls, Completed(outcome));
    forall i | 0 <= i < |s.steps| && s.steps[i].Restore?
      ensures Confirmed(s.steps, s.profiles, s.request.confirmations, i)
    {
      assert FitsStep(s.steps[i], events[i]);
      if s.steps[i].naming.IntoExisting? && ProfileOf(s.profiles, s.steps[i].profileId).production {
        ProductionIntoExistingIsRefused(s, events, i);
      } else if IsDestructive(s.steps[i]) {
        DroppedOnlyWhenNamed(s, events, i);
      }
    }
  }

  lemma ResolvedPlansAgree(world: World, steps: seq<Step>, profiles: seq<Profile>, request: Request,
                           resolved: map<nat, BackupRequest>)
    requires Known(steps, profiles) && ResolvesTo(world, steps, profiles, request, |steps|, resolved)
    ensures PlansAgree(steps)
  {
    forall i, j | 0 <= i < j < |steps| && steps[i].Backup? && steps[j].Backup? && steps[i].planId.Some?
      && steps[i].planId == steps[j].planId
      ensures steps[i].database == steps[j].database
    {
      assert i in resolved && j in resolved;
      assert SavedSelections(world, steps, i).Ok? && SavedSelections(world, steps, j).Ok?;
    }
  }

  // ── A world that refuses nothing it need not refuse ──

  function RestoreIfConfirmed(dest: Profile, request: RestoreRequest): Result<string, string> {
    if NeedsConfirmation(dest, request.naming) && request.confirmation != Some(request.naming.name)
    then Err("confirmation required")
    else Ok(if request.naming.NewTimestamped? then request.naming.prefix else request.naming.name)
  }

  /** The database of the first backup with the plan. */
  function PlannedDatabase(steps: seq<Step>, id: Id): string {
    if steps == [] then []
    else if steps[0].Backup? && steps[0].planId == Some(id) then steps[0].database
    else PlannedDatabase(steps[1..], id)
  }

  function WillingWorld(steps: seq<Step>): World {
    World(
      _ => false,
      id => Ok(Some(SavedPlan(PlannedDatabase(steps, id), []))),
      (_, _, _, selections) => Ok(selections),
      (_, _, _, rules, _) => Ok(Some(Coverage(rules, []))),
      (_, _) => Some([]),
      (_, _, _) => Ok([]),
      (_, dest, request) => RestoreIfConfirmed(dest, request),
      (_, _, _, _) => Ok([]),
      (_, _) => Ok(Report(0)),
      (_, _) => Ok([]),
      (_, _, _) => [],
      (_, _, _, _) => Ok(Report(0)),
      _ => None)
  }

  function WillingBackup(steps: seq<Step>, request: Request, i: nat): BackupRequest
    requires i < |steps| && steps[i].Backup?
  {
    BackupRequest(steps[i].database, if steps[i].planId.Some? then [] else steps[i].selections,
      if steps[i].outputDir.Some? then steps[i].outputDir.value else request.defaultDir)
  }

  function WillingBackups(steps: seq<Step>, request: Request): map<nat, BackupRequest> {
    map i: nat | i < |steps| && steps[i].Backup? :: WillingBackup(steps, request, i)
  }

  function WillingCoverages(steps: seq<Step>): map<nat, Option<Coverage>> {
    map i: nat | i < |steps| && steps[i].Mask? && LastBackup(steps, i).Some? :: Some(Coverage(steps[i].rules, []))
  }

  function WillingSetup(steps: seq<Step>, profiles: seq<Profile>, request: Request): Setup {
    Setup(steps, profiles, request, WillingWorld(steps), WillingBackups(steps, request), WillingCoverages(steps))
  }

  lemma {:induction false} PlannedDatabaseIs(steps: seq<Step>, i: nat)
    requires PlansAgree(steps) && i < |steps| && steps[i].Backup? && steps[i].planId.Some?
    ensures PlannedDatabase(steps, steps[i].planId.value) == steps[i].database
  {
    if i > 0 && !(steps[0].Backup? && steps[0].planId == steps[i].planId) {
      PlannedDatabaseIs(steps[1..], i - 1);
    }
  }

  lemma WillingResolves(steps: seq<Step>, profiles: seq<Profile>, request: Request, world: World, i: nat)
    requires Known(steps, profiles) && PlansAgree(steps) && world == WillingWorld(steps)
    requires i < |steps| && steps[i].Backup?
    ensures ResolvedAt(world, steps, profiles, request, i) == Ok(WillingBackup(steps, request, i))
  {
    if steps[i].planId.Some? {
      PlannedDatabaseIs(steps, i);
    }
  }

  lemma WillingResolvesAll(steps: seq<Step>, profiles: seq<Profile>, request: Request)
    requires Known(steps, profiles) && PlansAgree(steps)
    ensures ResolvesTo(WillingWorld(steps), steps, profiles, request, |steps|, WillingBackups(steps, request))
  {
    var world, resolved := WillingWorld(steps), WillingBackups(steps, request);
    forall i | i in resolved ensures ResolvedAt(world, steps, profiles, request, i) == Ok(resolved[i]) {
      WillingResolves(steps, profiles, request, world, i);
    }
  }

  lemma WillingCovers(steps: seq<Step>, profiles: seq<Profile>, resolved: map<nat, BackupRequest>, i: nat)
    requires Known(steps, profiles)
    requires forall k :: k in resolved <==> 0 <= k < |steps| && steps[k].Backup?
    requires i < |steps| && steps[i].Mask? && LastBackup(steps, i).Some?
    ensures CoverageAt(WillingWorld(steps), steps, profiles, resolved, i) == Ok(Some(Coverage(steps[i].rules, [])))
  {
  }

  lemma WillingCoversAll(steps: seq<Step>, profiles: seq<Profile>, resolved: map<nat, BackupRequest>)
    requires Known(steps, profiles)
    requires forall k :: k in resolved <==> 0 <= k < |steps| && steps[k].Backup?
    ensures CoversAs(WillingWorld(steps), steps, profiles, resolved, |steps|, WillingCoverages(steps))
  {
    var coverages := WillingCoverages(steps);
    forall i | i in coverages
      ensures CoverageAt(WillingWorld(steps), steps, profiles, resolved, i) == Ok(coverages[i])
    {
      WillingCovers(steps, profiles, resolved, i);
    }
  }

  lemma WillingIsPrepared(name: string, steps: seq<Step>, profiles: seq<Profile>, request: Request, s: Setup)
    requires Runnable(name, steps, profiles) && PlansAgree(steps) && s == WillingSetup(steps, profiles, request)
    ensures Prepared(s, name, steps, profiles, request, s.world) && Ready(s)
  {
    WillingResolvesAll(steps, profiles, request);
    WillingCoversAll(steps, profiles, s.resolved);
  }

  /** The answers of the outside to a run: everything goes well, and a restore that is confirmed succeeds. */
  ghost predicate Obliges(w: World) {
    && (forall i :: !w.cancelled(i))
    && (forall i, dir :: w.newest(i, dir).Some?)
    && (forall i, source, request :: w.backup(i, source, request).Ok?)
    && (forall i, dest, request :: w.restore(i, dest, request) == RestoreIfConfirmed(dest, request))
    && (forall i, dest, database, coverage :: w.mask(i, dest, database, coverage).Ok?)
    && (forall i, request :: w.verify(i, request).Ok?)
    && (forall i, artifact :: w.push(i, artifact).Ok?)
    && (forall i, dest, dir, deep :: w.drill(i, dest, dir, deep).Ok?)
  }

  lemma WillingObliges(steps: seq<Step>)
    ensures Obliges(WillingWorld(steps)) && RestoresAsDocumented(WillingWorld(steps))
  {
  }

  lemma RestoreGoesThrough(s: Setup, events: seq<Event>)
    requires Ready(s) && Obliges(s.world) && |events| < |s.steps| && AllFit(s.steps, events)
    requires s.steps[|events|].Restore? && Confirmed(s.steps, s.profiles, s.request.confirmations, |events|)
    ensures Failure(EventAt(s, events)).None?
  {
    assert InPlace(s.steps, |events|);
  }

  lemma StepGoesThrough(s: Setup, events: seq<Event>)
    requires Ready(s) && Obliges(s.world) && |events| < |s.steps| && AllFit(s.steps, events)
    requires !s.steps[|events|].Restore?
    ensures Failure(EventAt(s, events)).None?
  {
    assert InPlace(s.steps, |events|);
  }

  lemma {:induction false} WalksThrough(s: Setup, n: nat) returns (events: seq<Event>)
    requires Ready(s) && Obliges(s.world) && AllConfirmed(s.steps, s.profiles, s.request.confirmations)
    requires n <= |s.steps|
    ensures |events| == n && Walked(s, events)
  {
    events := [];
    if n > 0 {
      var before := WalksThrough(s, n - 1);
      var e := EventAt(s, before);
      if s.steps[n - 1].Restore? {
        RestoreGoesThrough(s, before);
      } else {
        StepGoesThrough(s, before);
      }
      DoneFits(s, before, e);
      WalkedOn(s, before, e);
      events := before + [e];
    }
  }

  /**
   What validation accepts can run to its end exactly if no restore goes into an existing
   database of a production server, the typed names begin with those of the databases to
   be dropped, in order, and no two backups of different databases name one saved plan.
   */
  lemma CompletesExactly(name: string, steps: seq<Step>, profiles: seq<Profile>, request: Request)
    requires Runnable(name, steps, profiles)
    ensures CanComplete(name, steps, profiles, request) <==>
      && SparesProduction(steps, profiles)
      && Arming.DestructiveTargets(steps) <= request.confirmations
      && PlansAgree(steps)
  {
    ConfirmedExactly(steps, profiles, request.confirmations);
    if CanComplete(name, steps, profiles, request) {
      var s: Setup, events, calls, outcome :| Prepared(s, name, steps, profiles, request, s.world)
        && RestoresAsDocumented(s.world) && CompletedIn(s, events, calls, outcome);
      CompletedWasConfirmed(s, events, calls, outcome);
      ResolvedPlansAgree(s.world, steps, profiles, request, s.resolved);
    } else if AllConfirmed(steps, profiles, request.confirmations) && PlansAgree(steps) {
      WillingCompletes(name, steps, profiles, request);
    }
  }

  lemma WillingCompletes(name: string, steps: seq<Step>, profiles: seq<Profile>, request: Request)
    requires Runnable(name, steps, profiles) && PlansAgree(steps)
    requires AllConfirmed(steps, profiles, request.confirmations)
    ensures CanComplete(name, steps, profiles, request)
  {
    var s := WillingSetup(steps, profiles, request);
    WillingIsPrepared(name, steps, profiles, request, s);
    WillingObliges(steps);
    var events := WalksThrough(s, |steps|);
    assert CompletedIn(s, events, AllCalls(s.world, events), OutcomeOf(events));
  }

  /** Run unattended, a pipeline needs besides that its names survive being cut into lines. */
  lemma UnattendedCompletesExactly(name: string, steps: seq<Step>, profiles: seq<Profile>, request: Request,
                                   ack: Option<string>)
    requires Runnable(name, steps, profiles)
    requires Arming.MayRunUnattended(ack, steps) && request.confirmations == Arming.Confirmations(ack)
    ensures CanComplete(name, steps, profiles, request) <==>
      && SparesProduction(steps, profiles)
      && Arming.Recoverable(Arming.DestructiveTargets(steps))
      && PlansAgree(steps)
  {
    CompletesExactly(name, steps, profiles, request);
    Arming.TargetsOfHarmless(steps);
    Arming.LinesBeginWithNamesExactly(Arming.DestructiveTargets(steps));
  }

  /** Once its steps were edited, a pipeline runs unattended to its end only if it replaces nothing. */
  lemma EditedCompletesExactly(name: string, steps: seq<Step>, profiles: seq<Profile>, request: Request,
                               before: Option<string>)
    requires Runnable(name, steps, profiles)
    requires request.confirmations == Arming.Confirmations(Arming.AckAfterUpdate(before, Some(steps)))
    ensures (&& Arming.MayRunUnattended(Arming.AckAfterUpdate(before, Some(steps)), steps)
             && CanComplete(name, steps, profiles, request)) <==>
      SparesProduction(steps, profiles) && Arming.DestructiveTargets(steps) == [] && PlansAgree(steps)
  {
    var ack := Arming.AckAfterUpdate(before, Some(steps));
    Arming.EditingDisarms(before, steps);
    if Arming.MayRunUnattended(ack, steps) {
      UnattendedCompletesExactly(name, steps, profiles, request, ack);
    }
  }

  // ── Pipelines that validate and cannot complete ──

  const SERVERS := [Profile(0, Mysql, false), Profile(1, Mysql, true)]

  const INTO_PRODUCTION := [Backup(0, "shop", None, [], None), Restore(1, PreviousStep, IntoExisting("shop"))]

  /** A restore into an existing production database is given no name, whatever was typed. */
  lemma IntoProductionNeverCompletes(name: string, request: Request)
    requires Trim(name) != []
    ensures Runnable(name, INTO_PRODUCTION, SERVERS) && !CanComplete(name, INTO_PRODUCTION, SERVERS, request)
  {
    var steps := INTO_PRODUCTION;
    assert LastBackup(steps, 1) == Some(0);
    assert FindProfile(SERVERS[1..], 1) == Some(SERVERS[1]);
    assert steps[1].Restore? && steps[1].naming.IntoExisting?;
    CompletesExactly(name, steps, SERVERS, request);
  }

  const ONE_PLAN_TWICE := [Backup(0, "shop", Some(7), [], None), Backup(0, "stock", Some(7), [], None)]

  /** Whatever database the plan is for, one of the backups is not of it. */
  lemma OnePlanTwiceNeverStarts(name: string, request: Request)
    requires Trim(name) != []
    ensures Runnable(name, ONE_PLAN_TWICE, SERVERS) && !CanComplete(name, ONE_PLAN_TWICE, SERVERS, request)
  {
    var steps := ONE_PLAN_TWICE;
    assert steps[0].Backup? && steps[1].Backup? && steps[0].planId == steps[1].planId;
    CompletesExactly(name, steps, SERVERS, request);
  }

  /** Drops and recreates these databases from a dump. */
  function Drops(names: seq<string>): (steps: seq<Step>)
    ensures |steps| == |names|
    ensures forall i | 0 <= i < |names| :: steps[i] == Restore(0, NamedPath("dump"), DropAndRecreate(names[i]))
  {
    if names == [] then []
    else [Restore(0, NamedPath("dump"), DropAndRecreate(names[0]))] + Drops(names[1..])
  }

  lemma {:induction false} TargetsOfDrops(names: seq<string>)
    ensures Arming.DestructiveTargets(Drops(names)) == names
  {
    if names != [] {
      TargetsOfDrops(names[1..]);
      assert Drops(names)[1..] == Drops(names[1..]);
    }
  }

  lemma DropsAreRunnable(name: string, names: seq<string>, profiles: seq<Profile>)
    requires Trim(name) != [] && FindProfile(profiles, 0).Some?
    requires names != [] && forall i, j | 0 <= i < j < |names| :: names[i] != names[j]
    ensures Runnable(name, Drops(names), profiles)
  {
    var steps := Drops(names);
    assert forall i | 0 <= i < |steps| :: InPlace(steps, i) && MaskIsSafe(steps, i);
    assert DistinctTargets(steps);
  }

  /** Armed, and handed the lines of its signature, it cannot complete unless they are the names. */
  lemma DropsCompleteExactly(name: string, names: seq<string>, profiles: seq<Profile>, ack: Option<string>,
      request: Request)
    requires Trim(name) != [] && FindProfile(profiles, 0).Some?
    requires names != [] && forall i, j | 0 <= i < j < |names| :: names[i] != names[j]
    requires ack == Arming.Signature(Drops(names)) && request.confirmations == Arming.Confirmations(ack)
    ensures Runnable(name, Drops(names), profiles) && Arming.IsArmed(ack, Drops(names))
    ensures request.confirmations == Lines(Arming.Join(names))
    ensures CanComplete(name, Drops(names), profiles, request) <==> Arming.Recoverable(names)
  {
    TargetsOfDrops(names);
    DropsAreRunnable(name, names, profiles);
    UnattendedCompletesExactly(name, Drops(names), profiles, request, ack);
  }

  /**
   Two databases, the first with a carriage return at the end of its name, and one with a
   newline in its name: armed, both are handed the names `a` and `b`, and cannot complete.
   */
  lemma ArmedWithTheWrongNames(name: string, names: seq<string>, profiles: seq<Profile>, ack: Option<string>,
      request: Request)
    requires Trim(name) != [] && FindProfile(profiles, 0).Some?
    requires names == ["a\r", "b"] || names == ["a\nb"]
    requires ack == Arming.Signature(Drops(names)) && request.confirmations == Arming.Confirmations(ack)
    ensures Runnable(name, Drops(names), profiles) && Arming.IsArmed(ack, Drops(names))
    ensures request.confirmations == ["a", "b"]
    ensures !CanComplete(name, Drops(names), profiles, request)
  {
    Arming.ReturnAndNewlineAreLost();
    DropsCompleteExactly(name, names, profiles, ack, request);
  }
}
