/**
 Running a pipeline.

 Whatever the run asks of the outside is a function of a `World`: any function at all, so
 every outcome of every operation and every cancellation is covered. `RunPipeline` is the
 loop of the engine, with its state threaded from step to step; an `expect` or
 `unreachable!` that fires ends the run as `Panicked`. It is proved against `EventAt`, which
 says what a step does from the positions of the nearest earlier steps alone.
 */
module PipelineRun {
  import opened Common
  import opened Selections
  import opened Pipeline
  import opened Steps
  import Arming

  datatype BackupRequest = BackupRequest(database: string, selections: seq<TableSelection>, outputDir: Path)

  datatype RestoreRequest = RestoreRequest(artifact: Path, naming: TargetNaming, confirmation: Option<string>)

  datatype VerifyRequest = VerifyRequest(
    source: Profile, dest: Profile, sourceDatabase: string, destDatabase: string,
    withData: seq<string>, schemaOnly: seq<string>, deep: bool, masked: set<string>)

  datatype Report = Report(failures: nat)

  predicate Passed(r: Report) { r.failures == 0 }

  datatype PushResult = PushResult(destination: Id, error: Option<string>)

  datatype SavedPlan = SavedPlan(database: string, selections: seq<TableSelection>)

  datatype OpError =
    | Refused(error: Error)
    | SyncPlanNotFound(id: Id)
    | TableSetMovedOn(step: nat, expected: string, found: string)
    | NoBackupsFound(dir: Path)
    | Interrupted
    | Operation(reason: string)

  /** How a run ends. */
  datatype Finish =
    | Completed(outcome: Outcome)
    | Stopped(error: OpError)
    | MissedProfile(id: Id)
    | Panicked

  datatype Outcome = Outcome(
    artifacts: seq<Path>, databases: seq<string>, verification: Option<Report>, masking: Option<seq<string>>,
    offsite: seq<PushResult>, removed: seq<Path>)

  predicate FullySucceeded(o: Outcome) {
    (o.verification.Some? ==> Passed(o.verification.value)) && forall p <- o.offsite :: p.error.None?
  }

  datatype Request = Request(confirmations: seq<string>, defaultDir: Path)

  /** The outside, asked on behalf of the step with the given index. */
  datatype World = World(
    cancelled: nat -> bool,
    syncPlan: Id -> Result<Option<SavedPlan>, string>,
    resolve: (nat, Profile, string, seq<TableSelection>) -> Result<seq<TableSelection>, string>,
    coverage: (nat, Profile, string, seq<MaskRule>, seq<TableSelection>) -> Result<Option<Coverage>, string>,
    newest: (nat, Path) -> Option<Path>,
    backup: (nat, Profile, BackupRequest) -> Result<Path, string>,
    restore: (nat, Profile, RestoreRequest) -> Result<string, string>,
    mask: (nat, Profile, string, Coverage) -> Result<seq<string>, string>,
    verify: (nat, VerifyRequest) -> Result<Report, string>,
    push: (nat, Path) -> Result<seq<PushResult>, string>,
    retain: (nat, Path, RetentionPolicy) -> seq<Path>,
    drill: (nat, Profile, Path, bool) -> Result<Report, string>,
    nested: nat -> Option<(seq<StepKind>, seq<Call>)>)

  /** What a step did. */
  datatype Event =
    | BackedUp(source: Profile, backup: BackupRequest, artifact: Result<Path, string>)
    | Restored(dest: Profile, restore: RestoreRequest, target: Result<string, string>)
    | NothingFound(dir: Path)
    | Masked(on: Profile, database: string, coverage: Coverage, columns: Result<seq<string>, string>)
    | MaskSkipped
    | Verified(verify: VerifyRequest, report: Result<Report, string>)
    | Pushed(pushed: Path, results: Result<seq<PushResult>, string>)
    | Retained(dir: Path, policy: RetentionPolicy, removed: seq<Path>)
    | RetentionSkipped
    | Drilled(dest: Profile, dir: Path, report: Result<Report, string>)

  /** The error that ends the run after this event, if it does. */
  function Failure(e: Event): Option<OpError> {
    match e
    case BackedUp(_, _, Err(reason)) => Some(Operation(reason))
    case Restored(_, _, Err(reason)) => Some(Operation(reason))
    case NothingFound(dir) => Some(NoBackupsFound(dir))
    case Masked(_, _, _, Err(reason)) => Some(Operation(reason))
    case Verified(_, Err(reason)) => Some(Operation(reason))
    case Pushed(_, Err(reason)) => Some(Operation(reason))
    case Drilled(_, _, Err(reason)) => Some(Operation(reason))
    case _ => None
  }

  /** Everything fixed before the first step runs. */
  datatype Setup = Setup(
    steps: seq<Step>, profiles: seq<Profile>, request: Request, world: World,
    resolved: map<nat, BackupRequest>, coverages: map<nat, Option<Coverage>>)

  // ── Before the first step ──

  function ProfileOf(profiles: seq<Profile>, id: Id): Profile
    requires FindProfile(profiles, id).Some?
  {
    FindProfile(profiles, id).value
  }

  /** With a plan id, the selections are those of the plan, which has to be for the same database. */
  function SavedSelections(world: World, steps: seq<Step>, i: nat): Result<seq<TableSelection>, OpError>
    requires i < |steps| && steps[i].Backup?
  {
    if steps[i].planId.None? then Ok(steps[i].selections)
    else match world.syncPlan(steps[i].planId.value)
      case Err(reason) => Err(Operation(reason))
      case Ok(None) => Err(SyncPlanNotFound(steps[i].planId.value))
      case Ok(Some(plan)) =>
        if plan.database != steps[i].database then Err(TableSetMovedOn(i + 1, steps[i].database, plan.database))
        else Ok(plan.selections)
  }

  /** The request the backup step at `i` will run with. */
  function ResolvedAt(world: World, steps: seq<Step>, profiles: seq<Profile>, request: Request, i: nat)
    : Result<BackupRequest, OpError>
    requires i < |steps| && steps[i].Backup? && Known(steps, profiles)
  {
    match SavedSelections(world, steps, i)
    case Err(e) => Err(e)
    case Ok(saved) =>
      match world.resolve(i, ProfileOf(profiles, steps[i].profileId), steps[i].database, saved)
      case Err(reason) => Err(Operation(reason))
      case Ok(selections) =>
        Ok(BackupRequest(steps[i].database, selections, if steps[i].outputDir.Some? then steps[i].outputDir.value
          else request.defaultDir))
  }

  ghost predicate ResolvesTo(world: World, steps: seq<Step>, profiles: seq<Profile>, request: Request, n: nat,
                             resolved: map<nat, BackupRequest>)
    requires n <= |steps| && Known(steps, profiles)
  {
    && (forall i :: i in resolved <==> 0 <= i < n && steps[i].Backup?)
    && forall i | i in resolved :: ResolvedAt(world, steps, profiles, request, i) == Ok(resolved[i])
  }

  /** The step at `i` is the first that cannot be resolved, and this is why. */
  predicate FirstUnresolved(world: World, steps: seq<Step>, profiles: seq<Profile>, request: Request, i: nat,
                            e: OpError)
    requires Known(steps, profiles)
  {
    && i < |steps| && steps[i].Backup? && ResolvedAt(world, steps, profiles, request, i) == Err(e)
    && forall j | 0 <= j < i && steps[j].Backup? :: ResolvedAt(world, steps, profiles, request, j).Ok?
  }

  /** The requests of all backup steps, completed with the tables their servers report. */
  method ResolveAll(world: World, steps: seq<Step>, profiles: seq<Profile>, request: Request)
    returns (r: Result<map<nat, BackupRequest>, OpError>)
    requires Known(steps, profiles)
    ensures r.Ok? ==> ResolvesTo(world, steps, profiles, request, |steps|, r.value)
    ensures r.Err? ==> exists i :: FirstUnresolved(world, steps, profiles, request, i, r.error)
  {
    var resolved: map<nat, BackupRequest> := map[];
    for i := 0 to |steps|
      invariant ResolvesTo(world, steps, profiles, request, i, resolved)
      invariant forall j | 0 <= j < i && steps[j].Backup? :: ResolvedAt(world, steps, profiles, request, j).Ok?
    {
      if steps[i].Backup? {
        var source := ProfileOf(profiles, steps[i].profileId);
        var saved := steps[i].selections;
        if steps[i].planId.Some? {
          match world.syncPlan(steps[i].planId.value) {
            case Err(reason) =>
              assert FirstUnresolved(world, steps, profiles, request, i, Operation(reason));
              return Err(Operation(reason));
            case Ok(None) =>
              assert FirstUnresolved(world, steps, profiles, request, i, SyncPlanNotFound(steps[i].planId.value));
              return Err(SyncPlanNotFound(steps[i].planId.value));
            case Ok(Some(plan)) =>
              if plan.database != steps[i].database {
                assert FirstUnresolved(world, steps, profiles, request, i,
                  TableSetMovedOn(i + 1, steps[i].database, plan.database));
                return Err(TableSetMovedOn(i + 1, steps[i].database, plan.database));
              }
              saved := plan.selections;
          }
        }
        var selections := world.resolve(i, source, steps[i].database, saved);
        if selections.Err? {
          assert FirstUnresolved(world, steps, profiles, request, i, Operation(selections.error));
          return Err(Operation(selections.error));
        }
        var dir := request.defaultDir;
        if steps[i].outputDir.Some? {
          dir := steps[i].outputDir.value;
        }
        resolved := resolved[i := BackupRequest(steps[i].database, selections.value, dir)];
      }
    }
    r := Ok(resolved);
  }

  /** `range(..i).next_back()`: the greatest key below `i`. */
  function NextBack(resolved: map<nat, BackupRequest>, i: nat): Option<nat> {
    if i == 0 then None else if i - 1 in resolved then Some(i - 1) else NextBack(resolved, i - 1)
  }

  lemma {:induction false} NextBackIsLastBackup(steps: seq<Step>, resolved: map<nat, BackupRequest>, i: nat)
    requires i <= |steps| && forall k :: k in resolved <==> 0 <= k < |steps| && steps[k].Backup?
    ensures NextBack(resolved, i) == LastBackup(steps, i)
  {
    if i > 0 {
      NextBackIsLastBackup(steps, resolved, i - 1);
    }
  }

  /** The masking planned for the mask step at `i`: against the selections of the nearest earlier backup. */
  function CoverageAt(world: World, steps: seq<Step>, profiles: seq<Profile>, resolved: map<nat, BackupRequest>,
                      i: nat): Result<Option<Coverage>, OpError>
    requires i < |steps| && steps[i].Mask? && Known(steps, profiles)
    requires forall k :: k in resolved <==> 0 <= k < |steps| && steps[k].Backup?
    requires LastBackup(steps, i).Some?
  {
    var b := LastBackup(steps, i).value;
    match world.coverage(i, ProfileOf(profiles, steps[b].profileId), resolved[b].database, steps[i].rules,
      resolved[b].selections)
    case Err(reason) => Err(Operation(reason))
    case Ok(c) => Ok(c)
  }

  ghost predicate CoversAs(world: World, steps: seq<Step>, profiles: seq<Profile>, resolved: map<nat, BackupRequest>,
                           n: nat, coverages: map<nat, Option<Coverage>>)
    requires n <= |steps| && Known(steps, profiles)
    requires forall k :: k in resolved <==> 0 <= k < |steps| && steps[k].Backup?
  {
    && (forall i :: i in coverages <==> 0 <= i < n && steps[i].Mask? && LastBackup(steps, i).Some?)
    && forall i | i in coverages :: CoverageAt(world, steps, profiles, resolved, i) == Ok(coverages[i])
  }

  /** The coverages there can be once the steps before `n` are seen to. */
  ghost function Coverings(world: World, steps: seq<Step>, profiles: seq<Profile>, resolved: map<nat, BackupRequest>,
                           n: nat): iset<map<nat, Option<Coverage>>>
    requires n <= |steps| && Known(steps, profiles)
    requires forall k :: k in resolved <==> 0 <= k < |steps| && steps[k].Backup?
  {
    iset c | CoversAs(world, steps, profiles, resolved, n, c)
  }

  /** The first mask whose rules cannot be checked. */
  ghost predicate CannotCover(world: World, steps: seq<Step>, profiles: seq<Profile>,
                              resolved: map<nat, BackupRequest>, i: nat, e: OpError)
    requires Known(steps, profiles)
    requires forall k :: k in resolved <==> 0 <= k < |steps| && steps[k].Backup?
  {
    && i < |steps| && steps[i].Mask? && LastBackup(steps, i).Some?
    && CoverageAt(world, steps, profiles, resolved, i) == Err(e)
    && exists c :: c in Coverings(world, steps, profiles, resolved, i)
  }

  lemma CoversNext(world: World, steps: seq<Step>, profiles: seq<Profile>, resolved: map<nat, BackupRequest>,
                   i: nat, coverages: map<nat, Option<Coverage>>)
    requires i < |steps| && Known(steps, profiles)
    requires forall k :: k in resolved <==> 0 <= k < |steps| && steps[k].Backup?
    requires coverages in Coverings(world, steps, profiles, resolved, i)
    ensures if steps[i].Mask? && NextBack(resolved, i).Some? then
        var b := NextBack(resolved, i).value;
        && b < |steps| && steps[b].Backup? && LastBackup(steps, i) == Some(b)
        && match CoverageAt(world, steps, profiles, resolved, i)
           case Err(e) => CannotCover(world, steps, profiles, resolved, i, e)
           case Ok(c) => coverages[i := c] in Coverings(world, steps, profiles, resolved, i + 1)
      else coverages in Coverings(world, steps, profiles, resolved, i + 1)
  {
    NextBackIsLastBackup(steps, resolved, i);
  }

  lemma NothingCovered(world: World, steps: seq<Step>, profiles: seq<Profile>, resolved: map<nat, BackupRequest>)
    requires Known(steps, profiles)
    requires forall k :: k in resolved <==> 0 <= k < |steps| && steps[k].Backup?
    ensures map[] in Coverings(world, steps, profiles, resolved, 0)
  {
  }

  /** Checks every masking rule against the schema; `None` for an `unreachable!` that was reached. */
  method CoverAll(world: World, steps: seq<Step>, profiles: seq<Profile>, resolved: map<nat, BackupRequest>)
    returns (r: Option<Result<map<nat, Option<Coverage>>, OpError>>)
    requires Known(steps, profiles)
    requires forall k :: k in resolved <==> 0 <= k < |steps| && steps[k].Backup?
    ensures r.Some?
    ensures r.value.Ok? ==> CoversAs(world, steps, profiles, resolved, |steps|, r.value.value)
    ensures r.value.Err? ==> exists i :: CannotCover(world, steps, profiles, resolved, i, r.value.error)
  {
    var coverages: map<nat, Option<Coverage>> := map[];
    NothingCovered(world, steps, profiles, resolved);
    for i := 0 to |steps|
      invariant coverages in Coverings(world, steps, profiles, resolved, i)
    {
      CoversNext(world, steps, profiles, resolved, i, coverages);
      if steps[i].Mask? && NextBack(resolved, i).Some? {
        var b := NextBack(resolved, i).value;
        if !steps[b].Backup? {
          return None;
        }
        var c := world.coverage(i, ProfileOf(profiles, steps[b].profileId), resolved[b].database, steps[i].rules,
          resolved[b].selections);
        if c.Err? {
          return Some(Err(Operation(c.error)));
        }
        coverages := coverages[i := c.value];
      }
    }
    r := Some(Ok(coverages));
  }

  // ── What a step sees, by position ──

  ghost predicate Ready(s: Setup) {
    && Known(s.steps, s.profiles)
    && (forall k :: k in s.resolved <==> 0 <= k < |s.steps| && s.steps[k].Backup?)
    && (forall i | 0 <= i < |s.steps| :: InPlace(s.steps, i))
  }

  function ArtifactOf(e: Event): Option<Path> {
    if e.BackedUp? && e.artifact.Ok? then Some(e.artifact.value) else None
  }

  function TargetOf(e: Event): Option<string> {
    if e.Restored? && e.target.Ok? then Some(e.target.value) else None
  }

  /** A step that went through left an event of its kind. */
  predicate FitsStep(step: Step, e: Event) {
    && Failure(e).None?
    && match step
       case Backup(_, _, _, _, _) => e.BackedUp?
       case Restore(_, _, _) => e.Restored?
       case Mask(_) => e.Masked? || e.MaskSkipped?
       case Verify(_) => e.Verified?
       case PushOffsite => e.Pushed?
       case Retention(_) => e.Retained? || e.RetentionSkipped?
       case Drill(_, _, _) => e.Drilled?
  }

  predicate AllFit(steps: seq<Step>, events: seq<Event>) {
    |events| <= |steps| && forall i | 0 <= i < |events| :: FitsStep(steps[i], events[i])
  }

  function ArtifactBefore(steps: seq<Step>, events: seq<Event>): (r: Option<Path>)
    requires |events| <= |steps|
    ensures AllFit(steps, events) && LastBackup(steps, |events|).Some? ==> r.Some?
  {
    match LastBackup(steps, |events|)
    case None => None
    case Some(b) => ArtifactOf(events[b])
  }

  function TargetBefore(steps: seq<Step>, events: seq<Event>): (r: Option<string>)
    requires |events| <= |steps|
    ensures AllFit(steps, events) && LastRestore(steps, |events|).Some? ==> r.Some?
  {
    match LastRestore(steps, |events|)
    case None => None
    case Some(r) => TargetOf(events[r])
  }

  function DestBefore(steps: seq<Step>, profiles: seq<Profile>, events: seq<Event>): (r: Option<Profile>)
    requires |events| <= |steps|
    ensures Known(steps, profiles) && LastRestore(steps, |events|).Some? ==> r.Some?
  {
    match LastRestore(steps, |events|)
    case None => None
    case Some(r) => FindProfile(profiles, steps[r].profileId)
  }

  /** The masking of the latest mask step that ran, whatever was restored since. */
  function CoverageBefore(events: seq<Event>): Option<Coverage> {
    if events == [] then None
    else
      var e := events[|events| - 1];
      if e.Masked? && e.columns.Ok? then Some(e.coverage) else CoverageBefore(events[..|events| - 1])
  }

  /** The report the run would carry: that of its latest verify step, or else of its first drill. */
  function VerifiedBefore(events: seq<Event>): Option<Report> {
    if events == [] then None
    else
      var e := events[|events| - 1];
      if e.Verified? && e.report.Ok? then Some(e.report.value) else VerifiedBefore(events[..|events| - 1])
  }

  function DrilledBefore(events: seq<Event>): Option<Report> {
    if events == [] then None
    else if events[0].Drilled? && events[0].report.Ok? then Some(events[0].report.value)
    else DrilledBefore(events[1..])
  }

  function VerdictBefore(events: seq<Event>): Option<Report> {
    if VerifiedBefore(events).Some? then VerifiedBefore(events) else DrilledBefore(events)
  }

  /** What the latest push did, and nothing of the earlier ones. */
  function PushedBefore(events: seq<Event>): seq<PushResult> {
    if events == [] then []
    else
      var e := events[|events| - 1];
      if e.Pushed? && e.results.Ok? then e.results.value else PushedBefore(events[..|events| - 1])
  }

  function DestructiveBefore(steps: seq<Step>, i: nat): nat
    requires i <= |steps|
  {
    if i == 0 then 0 else DestructiveBefore(steps, i - 1) + if IsDestructive(steps[i - 1]) then 1 else 0
  }

  /** The k-th destructive restore is handed the k-th confirmation; the others are handed none. */
  function ConfirmationAt(steps: seq<Step>, confirmations: seq<string>, i: nat): Option<string>
    requires i < |steps|
  {
    if IsDestructive(steps[i]) && DestructiveBefore(steps, i) < |confirmations|
    then Some(confirmations[DestructiveBefore(steps, i)]) else None
  }

  function Names(selections: seq<TableSelection>, mode: TableMode): seq<string> {
    if selections == [] then []
    else (if selections[0].mode == mode then [selections[0].name] else []) + Names(selections[1..], mode)
  }

  function Tables(c: Option<Coverage>): set<string> {
    if c.None? then {} else set rule <- c.value.effective :: rule.table
  }

  /** What the step after `events` does. */
  ghost function EventAt(s: Setup, events: seq<Event>): Event
    requires Ready(s) && |events| < |s.steps| && AllFit(s.steps, events)
  {
    var i := |events|;
    assert InPlace(s.steps, i);
    match s.steps[i]
    case Backup(profileId, _, _, _, _) =>
      var source := ProfileOf(s.profiles, profileId);
      BackedUp(source, s.resolved[i], s.world.backup(i, source, s.resolved[i]))
    case Restore(profileId, source, naming) =>
      var found := match source
        case PreviousStep => ArtifactBefore(s.steps, events)
        case NamedPath(path) => Some(path)
        case NewestInDirectory(dir) => s.world.newest(i, dir);
      if found.None? then NothingFound(if source.NewestInDirectory? then source.dir else [])
      else
        var dest := ProfileOf(s.profiles, profileId);
        var request := RestoreRequest(found.value, naming, ConfirmationAt(s.steps, s.request.confirmations, i));
        Restored(dest, request, s.world.restore(i, dest, request))
    case Mask(_) =>
      if i in s.coverages && s.coverages[i].Some? then
        var dest, target := DestBefore(s.steps, s.profiles, events).value, TargetBefore(s.steps, events).value;
        Masked(dest, target, s.coverages[i].value, s.world.mask(i, dest, target, s.coverages[i].value))
      else MaskSkipped
    case Verify(deep) =>
      var b := LastBackup(s.steps, i).value;
      var request := VerifyRequest(
        ProfileOf(s.profiles, s.steps[b].profileId), DestBefore(s.steps, s.profiles, events).value,
        s.resolved[b].database, TargetBefore(s.steps, events).value,
        Names(s.resolved[b].selections, SchemaAndData), Names(s.resolved[b].selections, SchemaOnly),
        deep, Tables(CoverageBefore(events)));
      Verified(request, s.world.verify(i, request))
    case PushOffsite =>
      var artifact := ArtifactBefore(s.steps, events).value;
      Pushed(artifact, s.world.push(i, artifact))
    case Retention(policy) =>
      var dir := s.resolved[LastBackup(s.steps, i).value].outputDir;
      if MayDelete(events) then Retained(dir, policy, s.world.retain(i, dir, policy)) else RetentionSkipped
    case Drill(profileId, artifactDir, deep) =>
      var dest := ProfileOf(s.profiles, profileId);
      var dir := if artifactDir.Some? then artifactDir.value
        else if LastBackup(s.steps, i).Some? then s.resolved[LastBackup(s.steps, i).value].outputDir
        else s.request.defaultDir;
      Drilled(dest, dir, s.world.drill(i, dest, dir, deep))
  }

  /** Retention runs only while no check it knows of has failed. */
  predicate MayDelete(events: seq<Event>) {
    && (VerdictBefore(events).Some? ==> Passed(VerdictBefore(events).value))
    && forall p <- PushedBefore(events) :: p.error.None?
  }

  ghost predicate Does(s: Setup, before: seq<Event>, e: Event)
    requires Ready(s)
  {
    |before| < |s.steps| && AllFit(s.steps, before) && e == EventAt(s, before)
  }

  /** Every step so far went through, and did what its position says. */
  ghost predicate Walked(s: Setup, events: seq<Event>)
    requires Ready(s)
  {
    AllFit(s.steps, events) && forall i | 0 <= i < |events| :: Does(s, events[..i], events[i])
  }

  // ── The run ──

  /** The mutable state of the loop: what later steps look up of earlier ones. */
  datatype RunState = RunState(
    artifact: Option<Path>, backup: Option<BackupRequest>, outputDir: Option<Path>, source: Option<Profile>,
    target: Option<string>, dest: Option<Profile>, coverage: Option<Coverage>)

  ghost function StateBefore(s: Setup, events: seq<Event>): RunState
    requires Ready(s) && |events| <= |s.steps|
  {
    var b := LastBackup(s.steps, |events|);
    RunState(
      ArtifactBefore(s.steps, events),
      if b.None? then None else Some(s.resolved[b.value]),
      if b.None? then None else Some(s.resolved[b.value].outputDir),
      if b.None? then None else FindProfile(s.profiles, s.steps[b.value].profileId),
      TargetBefore(s.steps, events), DestBefore(s.steps, s.profiles, events), CoverageBefore(events))
  }

  function Artifacts(events: seq<Event>): seq<Path> {
    if events == [] then []
    else Artifacts(events[..|events| - 1]) + match ArtifactOf(events[|events| - 1]) case None => [] case Some(a) => [a]
  }

  function Databases(events: seq<Event>): seq<string> {
    if events == [] then []
    else Databases(events[..|events| - 1]) + match TargetOf(events[|events| - 1]) case None => [] case Some(t) => [t]
  }

  function MaskedBefore(events: seq<Event>): Option<seq<string>> {
    if events == [] then None
    else
      var e := events[|events| - 1];
      if e.Masked? && e.columns.Ok? then Some(e.columns.value) else MaskedBefore(events[..|events| - 1])
  }

  function Removed(events: seq<Event>): seq<Path> {
    if events == [] then []
    else
      var e := events[|events| - 1];
      Removed(events[..|events| - 1]) + if e.Retained? then e.removed else []
  }

  function OutcomeOf(events: seq<Event>): Outcome {
    Outcome(Artifacts(events), Databases(events), VerdictBefore(events), MaskedBefore(events),
      PushedBefore(events), Removed(events))
  }

  function Min(a: nat, b: nat): nat { if a <= b then a else b }

  function LeftOver(s: Setup, i: nat): seq<string>
    requires i <= |s.steps|
  {
    s.request.confirmations[Min(DestructiveBefore(s.steps, i), |s.request.confirmations|)..]
  }

  function KindOf(s: Step): StepKind {
    match s
    case Backup(_, _, _, _, _) => BackupStep
    case Restore(_, _, _) => RestoreStep
    case Verify(_) => VerifyStep
    case Mask(_) => MaskStep
    case PushOffsite => OffsiteStep
    case Retention(_) => RetentionStep
    case Drill(_, _, _) => DrillStep
  }

  function Kinds(steps: seq<Step>): (kinds: seq<StepKind>)
    ensures |kinds| == |steps| && forall i | 0 <= i < |steps| :: kinds[i] == KindOf(steps[i])
  {
    if steps == [] then [] else [KindOf(steps[0])] + Kinds(steps[1..])
  }

  /** The recorder calls a step makes. */
  function CallsOf(world: World, i: nat, e: Event): seq<Call> {
    match e
    case NothingFound(_) => []
    case MaskSkipped => [Skip(MaskStep)]
    case RetentionSkipped => [Skip(RetentionStep)]
    case BackedUp(_, _, _) => Ran(BackupStep, e)
    case Restored(_, _, _) => Ran(RestoreStep, e)
    case Masked(_, _, _, _) => Ran(MaskStep, e)
    case Verified(_, _) => Ran(VerifyStep, e)
    case Pushed(_, _) => Ran(OffsiteStep, e)
    case Retained(_, _, _) => Ran(RetentionStep, e)
    case Drilled(_, _, _) =>
      [Begin(DrillStep)]
        + (if world.nested(i).Some? then [Nested(world.nested(i).value.0, world.nested(i).value.1)] else [])
      + if Failure(e).None? then [Done] else []
  }

  function Ran(kind: StepKind, e: Event): seq<Call> {
    if Failure(e).None? then [Begin(kind), Done] else [Begin(kind)]
  }

  function AllCalls(world: World, events: seq<Event>): seq<Call> {
    if events == [] then []
    else AllCalls(world, events[..|events| - 1]) + CallsOf(world, |events| - 1, events[|events| - 1])
  }

  /** How the walk ended, from its events: all done, cancelled before a step, or stopped by the last event. */
  ghost predicate Ended(s: Setup, events: seq<Event>, calls: seq<Call>, end: Finish)
    requires Ready(s)
  {
    && (forall i | 0 <= i < |events| :: !s.world.cancelled(i))
    && match end
       case Completed(outcome) =>
         && Walked(s, events) && |events| == |s.steps|
         && outcome == OutcomeOf(events) && calls == AllCalls(s.world, events)
       case Stopped(error) =>
         || (Walked(s, events) && |events| < |s.steps| && s.world.cancelled(|events|) && error == Interrupted
             && calls == AllCalls(s.world, events))
         || (events != [] && StoppedBy(s, events[..|events| - 1], events[|events| - 1], calls, error))
       case _ => false
  }

  ghost predicate StoppedBy(s: Setup, before: seq<Event>, e: Event, calls: seq<Call>, error: OpError)
    requires Ready(s)
  {
    && Walked(s, before) && Does(s, before, e) && Failure(e) == Some(error)
    && calls == AllCalls(s.world, before) + CallsOf(s.world, |before|, e)
  }

  // ── One step further ──

  lemma PrefixesStay(events: seq<Event>, e: Event)
    ensures (events + [e])[..|events|] == events
    ensures forall i | 0 <= i <= |events| :: (events + [e])[..i] == events[..i]
  {
  }

  lemma DoneFits(s: Setup, events: seq<Event>, e: Event)
    requires Ready(s) && Does(s, events, e) && Failure(e).None?
    ensures FitsStep(s.steps[|events|], e)
  {
  }

  lemma ExtendAll<E>(p: (seq<E>, E) -> bool, events: seq<E>, e: E)
    requires forall i | 0 <= i < |events| :: p(events[..i], events[i])
    requires p(events, e)
    ensures forall i | 0 <= i < |events + [e]| :: p((events + [e])[..i], (events + [e])[i])
  {
    forall i | 0 <= i < |events + [e]| ensures p((events + [e])[..i], (events + [e])[i]) {
      assert (events + [e])[..i] == if i < |events| then events[..i] else events;
    }
  }

  lemma WalkedOn(s: Setup, events: seq<Event>, e: Event)
    requires Ready(s) && Walked(s, events) && |events| < |s.steps|
    requires Does(s, events, e) && FitsStep(s.steps[|events|], e)
    ensures Walked(s, events + [e])
  {
    var after := events + [e];
    ExtendAll((before, event) => Ready(s) && Does(s, before, event), events, e);
    forall i | 0 <= i < |after| ensures FitsStep(s.steps[i], after[i]) {
      assert after[i] == if i < |events| then events[i] else e;
    }
  }

  lemma AllCallsOn(world: World, events: seq<Event>, e: Event)
    ensures AllCalls(world, events + [e]) == AllCalls(world, events) + CallsOf(world, |events|, e)
  {
    assert (events + [e])[..|events|] == events;
  }

  lemma {:induction false} DrilledOn(events: seq<Event>, e: Event)
    ensures DrilledBefore(events + [e]) ==
      if DrilledBefore(events).Some? then DrilledBefore(events)
      else if e.Drilled? && e.report.Ok? then Some(e.report.value) else None
  {
    if events == [] {
      assert [] + [e] == [e];
      assert DrilledBefore([]) == None;
    } else {
      assert (events + [e])[1..] == events[1..] + [e];
      DrilledOn(events[1..], e);
    }
  }

  /** What the outcome becomes after a step that went through. */
  function OutcomeAfter(o: Outcome, e: Event): Outcome {
    match e
    case BackedUp(_, _, Ok(artifact)) => o.(artifacts := o.artifacts + [artifact])
    case Restored(_, _, Ok(target)) => o.(databases := o.databases + [target])
    case Masked(_, _, _, Ok(columns)) => o.(masking := Some(columns))
    case Verified(_, Ok(report)) => o.(verification := Some(report))
    case Pushed(_, Ok(results)) => o.(offsite := results)
    case Retained(_, _, removed) => o.(removed := o.removed + removed)
    case Drilled(_, _, Ok(report)) => if o.verification.None? then o.(verification := Some(report)) else o
    case _ => o
  }

  lemma OutcomeOn(events: seq<Event>, e: Event)
    ensures OutcomeOf(events + [e]) == OutcomeAfter(OutcomeOf(events), e)
    ensures CoverageBefore(events + [e]) ==
      if e.Masked? && e.columns.Ok? then Some(e.coverage) else CoverageBefore(events)
  {
    PrefixesStay(events, e);
    DrilledOn(events, e);
  }

  /** What the loop carries after a step that went through. */
  ghost predicate CarriesOn(s: Setup, i: nat, e: Event, before: RunState, after: RunState)
    requires Ready(s) && i < |s.steps|
  {
    match s.steps[i]
    case Backup(profileId, _, _, _, _) =>
      after == before.(artifact := ArtifactOf(e), backup := Some(s.resolved[i]),
                       outputDir := Some(s.resolved[i].outputDir), source := FindProfile(s.profiles, profileId))
    case Restore(profileId, _, _) => after == before.(target := TargetOf(e), dest := FindProfile(s.profiles, profileId))
    case Mask(_) => after == if e.Masked? then before.(coverage := Some(e.coverage)) else before
    case _ => after == before
  }

  lemma StateOn(s: Setup, events: seq<Event>, e: Event)
    requires Ready(s) && |events| < |s.steps| && FitsStep(s.steps[|events|], e)
    ensures CarriesOn(s, |events|, e, StateBefore(s, events), StateBefore(s, events + [e]))
  {
    OutcomeOn(events, e);
    var after := events + [e];
    assert after[|events|] == e;
    forall i | 0 <= i < |events| ensures after[i] == events[i] {}
  }

  lemma ConfirmationsOn(s: Setup, i: nat)
    requires i < |s.steps|
    ensures ConfirmationAt(s.steps, s.request.confirmations, i) ==
      if IsDestructive(s.steps[i]) && LeftOver(s, i) != [] then Some(LeftOver(s, i)[0]) else None
    ensures LeftOver(s, i + 1) ==
      if IsDestructive(s.steps[i]) && LeftOver(s, i) != [] then LeftOver(s, i)[1..] else LeftOver(s, i)
  {
    assert DestructiveBefore(s.steps, i + 1) == DestructiveBefore(s.steps, i)
      + if IsDestructive(s.steps[i]) then 1 else 0;
  }

  /** The variables the loop carries. */
  datatype Carried = Carried(state: RunState, outcome: Outcome, confirmations: seq<string>)

  /** A step's turn: what it did and what is carried on, or an end nothing should lead to. */
  datatype Turn = Went(event: Event, carried: Carried) | Broke(finish: Finish)

  ghost predicate Carries(s: Setup, events: seq<Event>, c: Carried)
    requires Ready(s) && |events| <= |s.steps|
  {
    c == Carried(StateBefore(s, events), OutcomeOf(events), LeftOver(s, |events|))
  }

  ghost predicate Turned(s: Setup, events: seq<Event>, c: Carried, turn: Turn)
    requires Ready(s) && |events| < |s.steps|
  {
    && turn.Went? && Does(s, events, turn.event)
    && (Failure(turn.event).None? ==>
          && CarriesOn(s, |events|, turn.event, c.state, turn.carried.state)
          && turn.carried.outcome == OutcomeAfter(c.outcome, turn.event)
          && turn.carried.confirmations == LeftOver(s, |events| + 1))
  }

  ghost predicate AtStep(s: Setup, i: nat, events: seq<Event>, c: Carried) {
    Ready(s) && AllFit(s.steps, events) && i == |events| < |s.steps| && InPlace(s.steps, i) && Carries(s, events, c)
  }

  method RunBackup(s: Setup, i: nat, ghost events: seq<Event>, c: Carried) returns (turn: Turn)
    requires AtStep(s, i, events, c) && s.steps[i].Backup?
    ensures Turned(s, events, c, turn)
  {
    ConfirmationsOn(s, i);
    var state, outcome := c.state, c.outcome;
    var profileId := s.steps[i].profileId;
    var source := FindProfile(s.profiles, profileId);
    if source.None? { return Broke(MissedProfile(profileId)); }
    if i !in s.resolved { return Broke(Panicked); }
    var backupRequest := s.resolved[i];

    var artifact := s.world.backup(i, source.value, backupRequest);
    if artifact.Ok? {
      outcome := outcome.(artifacts := outcome.artifacts + [artifact.value]);
      state := state.(outputDir := Some(backupRequest.outputDir), backup := Some(backupRequest),
                      source := source, artifact := Some(artifact.value));
    }
    turn := Went(BackedUp(source.value, backupRequest, artifact), Carried(state, outcome, c.confirmations));
  }

  method RunRestore(s: Setup, i: nat, ghost events: seq<Event>, c: Carried) returns (turn: Turn)
    requires AtStep(s, i, events, c) && s.steps[i].Restore?
    ensures Turned(s, events, c, turn)
  {
    ConfirmationsOn(s, i);
    var state, outcome, confirmations := c.state, c.outcome, c.confirmations;
    var profileId := s.steps[i].profileId;
    var dest := FindProfile(s.profiles, profileId);
    if dest.None? { return Broke(MissedProfile(profileId)); }
    var artifact: Path := [];
    match s.steps[i].source {
      case PreviousStep =>
        if state.artifact.None? { return Broke(Panicked); }
        artifact := state.artifact.value;
      case NamedPath(path) =>
        artifact := path;
      case NewestInDirectory(dir) =>
        var newest := s.world.newest(i, dir);
        if newest.None? {
          return Went(NothingFound(dir), c);
        }
        artifact := newest.value;
    }

    var confirmation: Option<string> := None;
    if IsDestructive(s.steps[i]) && confirmations != [] {
      confirmation := Some(confirmations[0]);
      confirmations := confirmations[1..];
    }
    var restoreRequest := RestoreRequest(artifact, s.steps[i].naming, confirmation);
    var target := s.world.restore(i, dest.value, restoreRequest);
    if target.Ok? {
      outcome := outcome.(databases := outcome.databases + [target.value]);
      state := state.(target := Some(target.value), dest := dest);
    }
    turn := Went(Restored(dest.value, restoreRequest, target), Carried(state, outcome, confirmations));
  }

  method RunMask(s: Setup, i: nat, ghost events: seq<Event>, c: Carried) returns (turn: Turn)
    requires AtStep(s, i, events, c) && s.steps[i].Mask?
    ensures Turned(s, events, c, turn)
  {
    ConfirmationsOn(s, i);
    var state, outcome := c.state, c.outcome;
    var coverage := if i in s.coverages then s.coverages[i] else None;
    if coverage.None? || state.target.None? || state.dest.None? {
      return Went(MaskSkipped, c);
    }

    var columns := s.world.mask(i, state.dest.value, state.target.value, coverage.value);
    var event := Masked(state.dest.value, state.target.value, coverage.value, columns);
    if columns.Ok? {
      state := state.(coverage := coverage);
      outcome := outcome.(masking := Some(columns.value));
    }
    turn := Went(event, Carried(state, outcome, c.confirmations));
  }

  /** What a verify step asks for, out of what the loop carries. */
  function VerifyAsked(state: RunState, deep: bool): VerifyRequest
    requires state.backup.Some? && state.source.Some? && state.target.Some? && state.dest.Some?
  {
    VerifyRequest(
      state.source.value, state.dest.value, state.backup.value.database, state.target.value,
      Names(state.backup.value.selections, SchemaAndData), Names(state.backup.value.selections, SchemaOnly),
      deep, Tables(state.coverage))
  }

  lemma VerifySees(s: Setup, i: nat, events: seq<Event>, c: Carried)
    requires AtStep(s, i, events, c) && s.steps[i].Verify?
    ensures c.state.backup.Some? && c.state.source.Some? && c.state.target.Some? && c.state.dest.Some?
    ensures EventAt(s, events) == var asked := VerifyAsked(c.state, s.steps[i].deep);
      Verified(asked, s.world.verify(i, asked))
  {
  }

  method RunVerify(s: Setup, i: nat, ghost events: seq<Event>, c: Carried) returns (turn: Turn)
    requires AtStep(s, i, events, c) && s.steps[i].Verify?
    ensures Turned(s, events, c, turn)
  {
    ConfirmationsOn(s, i);
    VerifySees(s, i, events, c);
    var state, outcome := c.state, c.outcome;
    if state.backup.None? || state.source.None? || state.target.None? || state.dest.None? {
      return Broke(Panicked);
    }
    var request := VerifyAsked(state, s.steps[i].deep);
    var report := s.world.verify(i, request);
    if report.Ok? {
      outcome := outcome.(verification := Some(report.value));
    }
    turn := Went(Verified(request, report), Carried(state, outcome, c.confirmations));
  }

  method RunPush(s: Setup, i: nat, ghost events: seq<Event>, c: Carried) returns (turn: Turn)
    requires AtStep(s, i, events, c) && s.steps[i].PushOffsite?
    ensures Turned(s, events, c, turn)
  {
    ConfirmationsOn(s, i);
    var outcome := c.outcome;
    if c.state.artifact.None? { return Broke(Panicked); }

    var pushed := s.world.push(i, c.state.artifact.value);
    if pushed.Ok? {
      outcome := outcome.(offsite := pushed.value);
    }
    turn := Went(Pushed(c.state.artifact.value, pushed), Carried(c.state, outcome, c.confirmations));
  }

  lemma SuccessSoFar(s: Setup, events: seq<Event>, c: Carried)
    requires Ready(s) && AllFit(s.steps, events) && Carries(s, events, c)
    ensures FullySucceeded(c.outcome) <==> MayDelete(events)
  {
  }

  method RunRetention(s: Setup, i: nat, ghost events: seq<Event>, c: Carried) returns (turn: Turn)
    requires AtStep(s, i, events, c) && s.steps[i].Retention?
    ensures Turned(s, events, c, turn)
  {
    ConfirmationsOn(s, i);
    var outcome := c.outcome;
    if c.state.outputDir.None? { return Broke(Panicked); }
    SuccessSoFar(s, events, c);
    if !FullySucceeded(outcome) {
      return Went(RetentionSkipped, c);
    }

    var removed := s.world.retain(i, c.state.outputDir.value, s.steps[i].policy);
    outcome := outcome.(removed := outcome.removed + removed);
    turn := Went(Retained(c.state.outputDir.value, s.steps[i].policy, removed),
      Carried(c.state, outcome, c.confirmations));
  }

  method RunDrill(s: Setup, i: nat, ghost events: seq<Event>, c: Carried) returns (turn: Turn)
    requires AtStep(s, i, events, c) && s.steps[i].Drill?
    ensures Turned(s, events, c, turn)
  {
    ConfirmationsOn(s, i);
    var outcome := c.outcome;
    var profileId := s.steps[i].profileId;
    var dest := FindProfile(s.profiles, profileId);
    if dest.None? { return Broke(MissedProfile(profileId)); }
    var dir := s.request.defaultDir;
    if s.steps[i].artifactDir.Some? {
      dir := s.steps[i].artifactDir.value;
    } else if c.state.outputDir.Some? {
      dir := c.state.outputDir.value;
    }

    var report := s.world.drill(i, dest.value, dir, s.steps[i].deep);
    if report.Ok? && outcome.verification.None? {
      outcome := outcome.(verification := Some(report.value));
    }
    turn := Went(Drilled(dest.value, dir, report), Carried(c.state, outcome, c.confirmations));
  }

  method Perform(s: Setup, i: nat, ghost events: seq<Event>, c: Carried) returns (turn: Turn)
    requires AtStep(s, i, events, c)
    ensures Turned(s, events, c, turn)
  {
    match s.steps[i] {
      case Backup(_, _, _, _, _) => turn := RunBackup(s, i, events, c);
      case Restore(_, _, _) => turn := RunRestore(s, i, events, c);
      case Mask(_) => turn := RunMask(s, i, events, c);
      case Verify(_) => turn := RunVerify(s, i, events, c);
      case PushOffsite => turn := RunPush(s, i, events, c);
      case Retention(_) => turn := RunRetention(s, i, events, c);
      case Drill(_, _, _) => turn := RunDrill(s, i, events, c);
    }
  }

  /** The loop has come this far, and carries what the events say. */
  ghost predicate Underway(s: Setup, i: nat, events: seq<Event>, c: Carried, calls: seq<Call>) {
    && Ready(s) && |events| == i <= |s.steps| && Walked(s, events) && Carries(s, events, c)
    && calls == AllCalls(s.world, events)
    && forall j | 0 <= j < i :: !s.world.cancelled(j)
  }

  /** Where the loop can be before step `i`: the events so far, what is carried, and the recorder's calls. */
  ghost function RunsTo(s: Setup, i: nat): iset<(seq<Event>, Carried, seq<Call>)> {
    iset x: (seq<Event>, Carried, seq<Call>) | Underway(s, i, x.0, x.1, x.2)
  }

  ghost function Endings(s: Setup): iset<(seq<Event>, seq<Call>, Finish)>
    requires Ready(s)
  {
    iset x: (seq<Event>, seq<Call>, Finish) | Ended(s, x.0, x.1, x.2)
  }

  predicate Fresh(s: Setup, c: Carried) {
    && c.state == RunState(None, None, None, None, None, None, None) && c.outcome == Outcome([], [], None, None, [], [])
    && c.confirmations == s.request.confirmations
  }

  lemma StartsUnderway(s: Setup, events: seq<Event>, c: Carried, calls: seq<Call>)
    requires Ready(s) && Fresh(s, c) && events == [] && calls == []
    ensures Underway(s, 0, events, c, calls)
  {
  }

  lemma Start(s: Setup, events: seq<Event>, c: Carried, calls: seq<Call>)
    requires Ready(s) && Fresh(s, c) && events == [] && calls == []
    ensures (events, c, calls) in RunsTo(s, 0)
  {
    StartsUnderway(s, events, c, calls);
  }

  lemma Passes(s: Setup, i: nat, events: seq<Event>, c: Carried, calls: seq<Call>, e: Event, c': Carried)
    requires Underway(s, i, events, c, calls) && i < |s.steps| && !s.world.cancelled(i)
    requires Turned(s, events, c, Went(e, c')) && Failure(e).None?
    ensures Underway(s, i + 1, events + [e], c', calls + CallsOf(s.world, i, e))
  {
    DoneFits(s, events, e);
    WalkedOn(s, events, e);
    AllCallsOn(s.world, events, e);
    StateOn(s, events, e);
    OutcomeOn(events, e);
  }

  /** The events of walks that have not been stopped. */
  ghost function Walks(s: Setup): iset<seq<Event>>
    requires Ready(s)
  {
    iset events: seq<Event> | Walked(s, events) && forall j | 0 <= j < |events| :: !s.world.cancelled(j)
  }

  lemma Stops(s: Setup, before: seq<Event>, e: Event, events: seq<Event>, calls: seq<Call>)
    requires Ready(s) && before in Walks(s) && Does(s, before, e) && Failure(e).Some? && !s.world.cancelled(|before|)
    requires events == before + [e] && calls == AllCalls(s.world, before) + CallsOf(s.world, |before|, e)
    ensures (events, calls, Stopped(Failure(e).value)) in Endings(s)
  {
    StopsAfter(s, before, e, events, calls, Failure(e).value);
  }

  lemma StopsAfter(s: Setup, before: seq<Event>, e: Event, events: seq<Event>, calls: seq<Call>, error: OpError)
    requires Ready(s) && StoppedBy(s, before, e, calls, error) && events == before + [e]
    requires forall j | 0 <= j <= |before| :: !s.world.cancelled(j)
    ensures Ended(s, events, calls, Stopped(error))
  {
    assert events[..|events| - 1] == before;
  }

  /** Cancelled before this step, or ready for it. */
  lemma StepFrom(s: Setup, i: nat, events: seq<Event>, c: Carried, calls: seq<Call>)
    requires (events, c, calls) in RunsTo(s, i) && i < |s.steps|
    ensures Ready(s) && AtStep(s, i, events, c)
    ensures s.world.cancelled(i) ==> (events, calls, Stopped(Interrupted)) in Endings(s)
  {
    if s.world.cancelled(i) {
      assert Ended(s, events, calls, Stopped(Interrupted));
    }
  }

  lemma SoFar(s: Setup, i: nat, events: seq<Event>, c: Carried, calls: seq<Call>)
    requires (events, c, calls) in RunsTo(s, i)
    ensures Ready(s) && |events| == i && events in Walks(s) && calls == AllCalls(s.world, events)
  {
  }

  /** A step that fails ends the run. */
  lemma FailureEnds(s: Setup, i: nat, events: seq<Event>, c: Carried, calls: seq<Call>, e: Event)
    requires (events, c, calls) in RunsTo(s, i) && i < |s.steps| && !s.world.cancelled(i)
    requires Ready(s) && Does(s, events, e) && Failure(e).Some?
    ensures (events + [e], calls + CallsOf(s.world, i, e), Stopped(Failure(e).value)) in Endings(s)
  {
    SoFar(s, i, events, c, calls);
    Stops(s, events, e, events + [e], calls + CallsOf(s.world, i, e));
  }

  /** One that does not takes it on to the next. */
  lemma SuccessGoesOn(s: Setup, i: nat, events: seq<Event>, c: Carried, calls: seq<Call>, e: Event, c': Carried)
    requires (events, c, calls) in RunsTo(s, i) && i < |s.steps| && !s.world.cancelled(i)
    requires Ready(s) && |events| < |s.steps| && Turned(s, events, c, Went(e, c')) && Failure(e).None?
    ensures (events + [e], c', calls + CallsOf(s.world, i, e)) in RunsTo(s, i + 1)
  {
    Passes(s, i, events, c, calls, e, c');
  }

  lemma WalkedThrough(s: Setup, events: seq<Event>, c: Carried, calls: seq<Call>)
    requires Ready(s) && (events, c, calls) in RunsTo(s, |s.steps|)
    ensures (events, calls, Completed(c.outcome)) in Endings(s)
  {
    assert Ended(s, events, calls, Completed(c.outcome));
  }

  /** Performs the step at `i`, unless the run was cancelled before it. */
  method Advance(s: Setup, i: nat, events: seq<Event>, c: Carried, calls: seq<Call>)
    returns (stopped: bool, end: Finish, events': seq<Event>, c': Carried, calls': seq<Call>)
    requires Ready(s) && (events, c, calls) in RunsTo(s, i) && i < |s.steps|
    ensures stopped ==> (events', calls', end) in Endings(s)
    ensures !stopped ==> (events', c', calls') in RunsTo(s, i + 1)
  {
    stopped, end, events', c', calls' := true, Stopped(Interrupted), events, c, calls;
    StepFrom(s, i, events, c, calls);
    if s.world.cancelled(i) {
      return;
    }
    var turn := Perform(s, i, events, c);
    var event := turn.event;
    events', calls' := events + [event], calls + CallsOf(s.world, i, event);
    if Failure(event).Some? {
      FailureEnds(s, i, events, c, calls, event);
      end := Stopped(Failure(event).value);
    } else {
      SuccessGoesOn(s, i, events, c, calls, event, turn.carried);
      stopped, c' := false, turn.carried;
    }
  }

  /** The loop of `run_pipeline`. */
  method Walk(s: Setup) returns (end: Finish, events: seq<Event>, calls: seq<Call>)
    requires Ready(s)
    ensures (events, calls, end) in Endings(s)
  {
    events, calls := [], [];
    var carried := Carried(
      RunState(None, None, None, None, None, None, None), Outcome([], [], None, None, [], []), s.request.confirmations);
    Start(s, events, carried, calls);
    for i := 0 to |s.steps|
      invariant (events, carried, calls) in RunsTo(s, i)
    {
      var stopped: bool;
      stopped, end, events, carried, calls := Advance(s, i, events, carried, calls);
      if stopped {
        return;
      }
    }
    end := Completed(carried.outcome);
    WalkedThrough(s, events, carried, calls);
  }

  /** What a run decides before its first step. */
  ghost predicate Prepared(s: Setup, name: string, steps: seq<Step>, profiles: seq<Profile>, request: Request,
                           world: World) {
    && s.steps == steps && s.profiles == profiles && s.request == request && s.world == world
    && Runnable(name, steps, profiles)
    && ResolvesTo(world, steps, profiles, request, |steps|, s.resolved)
    && CoversAs(world, steps, profiles, s.resolved, |steps|, s.coverages)
  }

  /** Why a run that may start does not reach its first step. */
  ghost predicate CannotStart(steps: seq<Step>, profiles: seq<Profile>, request: Request, world: World, e: OpError)
    requires Known(steps, profiles)
  {
    || (exists i :: FirstUnresolved(world, steps, profiles, request, i, e))
    || (exists resolved, i :: ResolvesTo(world, steps, profiles, request, |steps|, resolved)
          && CannotCover(world, steps, profiles, resolved, i, e))
  }

  /**
   `run_pipeline`. For every world: a pipeline that does not validate is refused before
   anything is asked of the world, and one that does never panics and never misses a
   profile; it ends where its events say, and each event is the one its position calls for.
   */
  method RunPipeline(name: string, steps: seq<Step>, profiles: seq<Profile>, request: Request, world: World)
    returns (end: Finish, prepared: Option<Setup>, events: seq<Event>, calls: seq<Call>)
    ensures !end.Panicked? && !end.MissedProfile?
    ensures !Runnable(name, steps, profiles) ==>
      && end.Stopped? && end.error.Refused? && prepared.None?
      && Complains(end.error.error, name, steps, profiles)
    ensures prepared.None? ==> end.Stopped? && events == [] && calls == []
    ensures prepared.None? && Runnable(name, steps, profiles) ==>
      CannotStart(steps, profiles, request, world, end.error)
    ensures prepared.Some? ==> Prepared(prepared.value, name, steps, profiles, request, world)
    ensures prepared.Some? ==> Ready(prepared.value) && Ended(prepared.value, events, calls, end)
  {
    prepared, events, calls := None, [], [];
    var invalid := ValidateAgainst(name, steps, profiles);
    if invalid.Some? {
      end := Stopped(Refused(invalid.value));
      return;
    }
    var resolved := ResolveAll(world, steps, profiles, request);
    if resolved.Err? {
      end := Stopped(resolved.error);
      return;
    }
    var coverages := CoverAll(world, steps, profiles, resolved.value);
    if coverages.None? {
      end := Panicked;
      return;
    }
    if coverages.value.Err? {
      assert CannotStart(steps, profiles, request, world, coverages.value.error);
      end := Stopped(coverages.value.error);
      return;
    }
    prepared := Some(Setup(steps, profiles, request, world, resolved.value, coverages.value.value));
    end, events, calls := Walk(prepared.value);
  }
}
