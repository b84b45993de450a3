/**
 Pipelines: the steps, and the static rules a chain of steps must meet.

 `ValidateSteps` and `ValidateAgainst` are the loops of the engine, with their running
 flags. They are proved to accept exactly the pipelines that satisfy rules stated by
 position: what must come earlier, and what the nearest earlier step of a kind is.
 */
module Pipeline {
  import opened Common
  import opened Selections
  import opened Text

  type Id = int
  type Path = string

  datatype Engine = Mysql | Postgres | Mongo

  datatype Profile = Profile(id: Id, engine: Engine, production: bool)

  datatype TargetNaming = NewTimestamped(prefix: string) | DropAndRecreate(name: string) | IntoExisting(name: string)

  datatype ArtifactSource = PreviousStep | NewestInDirectory(dir: Path) | NamedPath(path: Path)

  datatype MaskRule = MaskRule(table: string, column: string)

  /** The rules a mask will apply, and those whose tables carry no data. */
  datatype Coverage = Coverage(effective: seq<MaskRule>, inert: seq<MaskRule>)

  datatype RetentionPolicy = RetentionPolicy(keepLast: Option<nat>, maxAgeDays: Option<nat>)

  datatype Step =
    | Backup(profileId: Id, database: string, planId: Option<Id>, selections: seq<TableSelection>,
      outputDir: Option<Path>)
    | Restore(profileId: Id, source: ArtifactSource, naming: TargetNaming)
    | Verify(deep: bool)
    | Mask(rules: seq<MaskRule>)
    | PushOffsite
    | Retention(policy: RetentionPolicy)
    | Drill(profileId: Id, artifactDir: Option<Path>, deep: bool)

  datatype Error =
    | NoName
    | Empty
    | NoDatabase(step: nat)
    | NothingToRestore(step: nat)
    | NothingRestoredYet(step: nat)
    | NothingToCompareAgainst(step: nat)
    | NoRules(step: nat)
    | NoArtifactYet(step: nat)
    | EmptyRetention(step: nat)
    | MaskingIntoExisting(step: nat, database: string)
    | RepeatedDestructiveTarget(database: string)
    | UnknownProfile(step: nat)
    | EngineMismatch(backupStep: nat, restoreStep: nat)

  predicate PolicyEnabled(p: RetentionPolicy) { p.keepLast.Some? || p.maxAgeDays.Some? }

  predicate IsDestructive(s: Step) {
    s.Restore? && s.naming.DropAndRecreate?
  }

  predicate NamesProfile(s: Step) {
    s.Backup? || s.Restore? || s.Drill?
  }

  // ── The rules, by position ──

  /** The nearest step of a kind before position `i`. */
  function LastWhere(kind: Step -> bool, steps: seq<Step>, i: nat): (r: Option<nat>)
    requires i <= |steps|
    ensures r.Some? ==> r.value < i && kind(steps[r.value]) && forall j | r.value < j < i :: !kind(steps[j])
    ensures r.None? ==> forall j | 0 <= j < i :: !kind(steps[j])
  {
    if i == 0 then None
    else if kind(steps[i - 1]) then Some(i - 1)
    else LastWhere(kind, steps, i - 1)
  }

  function LastBackup(steps: seq<Step>, i: nat): (r: Option<nat>)
    requires i <= |steps|
    ensures r.Some? ==> r.value < i && steps[r.value].Backup? && forall j | r.value < j < i :: !steps[j].Backup?
    ensures r.None? ==> forall j | 0 <= j < i :: !steps[j].Backup?
  {
    LastWhere((s: Step) => s.Backup?, steps, i)
  }

  function LastRestore(steps: seq<Step>, i: nat): (r: Option<nat>)
    requires i <= |steps|
    ensures r.Some? ==> r.value < i && steps[r.value].Restore? && forall j | r.value < j < i :: !steps[j].Restore?
    ensures r.None? ==> forall j | 0 <= j < i :: !steps[j].Restore?
  {
    LastWhere((s: Step) => s.Restore?, steps, i)
  }

  /** What has to hold of the step at `i`, given what comes before it. */
  predicate InPlace(steps: seq<Step>, i: nat)
    requires i < |steps|
  {
    match steps[i]
    case Backup(_, database, _, _, _) => Trim(database) != []
    case Restore(_, source, _) => source.PreviousStep? ==> LastBackup(steps, i).Some?
    case Verify(_) => LastRestore(steps, i).Some? && LastBackup(steps, i).Some?
    case Mask(rules) => LastRestore(steps, i).Some? && rules != []
    case PushOffsite => LastBackup(steps, i).Some?
    case Retention(policy) => LastBackup(steps, i).Some? && PolicyEnabled(policy)
    case Drill(_, _, _) => true
  }

  /** A mask never follows a restore into a database that was already there. */
  predicate MaskIsSafe(steps: seq<Step>, i: nat)
    requires i < |steps|
  {
    steps[i].Mask? && LastRestore(steps, i).Some? ==> !steps[LastRestore(steps, i).value].naming.IntoExisting?
  }

  predicate DistinctTargets(steps: seq<Step>) {
    forall i, j | 0 <= i < j < |steps| && IsDestructive(steps[i]) && IsDestructive(steps[j]) ::
      steps[i].naming.name != steps[j].naming.name
  }

  predicate WellFormed(name: string, steps: seq<Step>) {
    && Trim(name) != [] && steps != []
    && (forall i | 0 <= i < |steps| :: InPlace(steps, i))
    && (forall i | 0 <= i < |steps| :: MaskIsSafe(steps, i))
    && DistinctTargets(steps)
  }

  /** What the error says of a step is so, given whether a backup and a restore come before it. */
  predicate Blames(e: Error, s: Step, afterBackup: bool, afterRestore: bool) {
    match e
    case NoDatabase(_) => s.Backup? && Trim(s.database) == []
    case NothingToRestore(_) => s.Restore? && s.source.PreviousStep? && !afterBackup
    case NothingRestoredYet(_) => (s.Verify? || s.Mask?) && !afterRestore
    case NothingToCompareAgainst(_) => s.Verify? && afterRestore && !afterBackup
    case NoRules(_) => s.Mask? && afterRestore && s.rules == []
    case NoArtifactYet(_) => (s.PushOffsite? || s.Retention?) && !afterBackup
    case EmptyRetention(_) => s.Retention? && afterBackup && !PolicyEnabled(s.policy)
    case _ => false
  }

  /** An error about the order of the steps: the step it names, counted from 1, is the first out of place, and why. */
  predicate FirstOutOfPlace(e: Error, steps: seq<Step>) {
    && AboutOrder(e) && 1 <= e.step <= |steps|
    && (forall j | 0 <= j < e.step - 1 :: InPlace(steps, j)) && !InPlace(steps, e.step - 1)
    && Blames(e, steps[e.step - 1], LastBackup(steps, e.step - 1).Some?, LastRestore(steps, e.step - 1).Some?)
  }

  predicate AboutOrder(e: Error) {
    || e.NoDatabase? || e.NothingToRestore? || e.NothingRestoredYet? || e.NothingToCompareAgainst?
    || e.NoRules? || e.NoArtifactYet? || e.EmptyRetention?
  }

  /** The first mask after a restore into an existing database, and that database. */
  predicate FirstUnsafeMask(e: Error, steps: seq<Step>) {
    && e.MaskingIntoExisting? && 1 <= e.step <= |steps|
    && (forall j | 0 <= j < e.step - 1 :: MaskIsSafe(steps, j))
    && steps[e.step - 1].Mask? && LastRestore(steps, e.step - 1).Some?
    && steps[LastRestore(steps, e.step - 1).value].naming == IntoExisting(e.database)
  }

  /** The first database replaced a second time. */
  ghost predicate FirstRepeated(e: Error, steps: seq<Step>) {
    && e.RepeatedDestructiveTarget?
    && exists i, j ::
      && 0 <= i < j < |steps| && IsDestructive(steps[i]) && IsDestructive(steps[j])
      && steps[i].naming.name == steps[j].naming.name == e.database
      && DistinctTargets(steps[..j])
  }

  /** The error is the first that holds, in the order they are looked for. */
  ghost predicate Explains(e: Error, name: string, steps: seq<Step>) {
    match e
    case NoName => Trim(name) == []
    case Empty => Trim(name) != [] && steps == []
    case MaskingIntoExisting(_, _) =>
      Trim(name) != [] && (forall i | 0 <= i < |steps| :: InPlace(steps, i)) && FirstUnsafeMask(e, steps)
    case RepeatedDestructiveTarget(_) =>
      && Trim(name) != [] && (forall i | 0 <= i < |steps| :: InPlace(steps, i) && MaskIsSafe(steps, i))
      && FirstRepeated(e, steps)
    case UnknownProfile(_) => false
    case EngineMismatch(_, _) => false
    case _ => Trim(name) != [] && FirstOutOfPlace(e, steps)
  }

  // ── The loops ──

  /** The per-step part of the first loop, on the flags it carries. */
  method CheckStep(s: Step, step: nat, seenBackup: bool, seenRestore: bool) returns (r: Option<Error>)
    ensures r.Some? ==> AboutOrder(r.value) && r.value.step == step && Blames(r.value, s, seenBackup, seenRestore)
    ensures r.None? <==>
      match s
      case Backup(_, database, _, _, _) => Trim(database) != []
      case Restore(_, source, _) => source.PreviousStep? ==> seenBackup
      case Verify(_) => seenRestore && seenBackup
      case Mask(rules) => seenRestore && rules != []
      case PushOffsite => seenBackup
      case Retention(policy) => seenBackup && PolicyEnabled(policy)
      case Drill(_, _, _) => true
  {
    r := None;
    match s {
      case Backup(_, database, _, _, _) =>
        if Trim(database) == [] { r := Some(NoDatabase(step)); }
      case Restore(_, source, _) =>
        if source.PreviousStep? && !seenBackup { r := Some(NothingToRestore(step)); }
      case Verify(_) =>
        if !seenRestore { r := Some(NothingRestoredYet(step)); }
        else if !seenBackup { r := Some(NothingToCompareAgainst(step)); }
      case Mask(rules) =>
        if !seenRestore { r := Some(NothingRestoredYet(step)); }
        else if rules == [] { r := Some(NoRules(step)); }
      case PushOffsite =>
        if !seenBackup { r := Some(NoArtifactYet(step)); }
      case Retention(policy) =>
        if !seenBackup { r := Some(NoArtifactYet(step)); }
        else if !PolicyEnabled(policy) { r := Some(EmptyRetention(step)); }
      case Drill(_, _, _) =>
    }
  }

  method CheckOrder(steps: seq<Step>) returns (r: Option<Error>)
    ensures r.None? <==> forall i | 0 <= i < |steps| :: InPlace(steps, i)
    ensures r.Some? ==> FirstOutOfPlace(r.value, steps)
  {
    var seenBackup, seenRestore := false, false;
    for i := 0 to |steps|
      invariant seenBackup <==> LastBackup(steps, i).Some?
      invariant seenRestore <==> LastRestore(steps, i).Some?
      invariant forall j | 0 <= j < i :: InPlace(steps, j)
    {
      r := CheckStep(steps[i], i + 1, seenBackup, seenRestore);
      if r.Some? {
        assert !InPlace(steps, i);
        return;
      }
      if steps[i].Backup? { seenBackup := true; }
      if steps[i].Restore? { seenRestore := true; }
    }
    r := None;
  }

  method CheckMasks(steps: seq<Step>) returns (r: Option<Error>)
    ensures r.None? <==> forall i | 0 <= i < |steps| :: MaskIsSafe(steps, i)
    ensures r.Some? ==> FirstUnsafeMask(r.value, steps)
  {
    var lastNaming: Option<TargetNaming> := None;
    for i := 0 to |steps|
      invariant lastNaming == if LastRestore(steps, i).None? then None
        else Some(steps[LastRestore(steps, i).value].naming)
      invariant forall j | 0 <= j < i :: MaskIsSafe(steps, j)
    {
      match steps[i] {
        case Restore(_, _, naming) => lastNaming := Some(naming);
        case Mask(_) =>
          if lastNaming.Some? && lastNaming.value.IntoExisting? {
            assert !MaskIsSafe(steps, i);
            return Some(MaskingIntoExisting(i + 1, lastNaming.value.name));
          }
        case _ =>
      }
    }
    r := None;
  }

  method CheckTargets(steps: seq<Step>) returns (r: Option<Error>)
    ensures r.None? <==> DistinctTargets(steps)
    ensures r.Some? ==> FirstRepeated(r.value, steps)
  {
    var seen: set<string> := {};
    for i := 0 to |steps|
      invariant forall n :: n in seen <==>
        exists j :: 0 <= j < i && IsDestructive(steps[j]) && steps[j].naming.name == n
      invariant forall j, k | 0 <= j < k < i && IsDestructive(steps[j]) && IsDestructive(steps[k]) ::
        steps[j].naming.name != steps[k].naming.name
    {
      if IsDestructive(steps[i]) {
        var target := steps[i].naming.name;
        if target in seen {
          assert DistinctTargets(steps[..i]);
          return Some(RepeatedDestructiveTarget(target));
        }
        seen := seen + {target};
      }
    }
    r := None;
  }

  /** `validate_steps`: accepts exactly the well-formed pipelines, and otherwise says truthfully why not. */
  method ValidateSteps(name: string, steps: seq<Step>) returns (r: Option<Error>)
    ensures r.None? <==> WellFormed(name, steps)
    ensures r.Some? ==> Explains(r.value, name, steps)
  {
    if Trim(name) == [] {
      return Some(NoName);
    }
    if steps == [] {
      return Some(Empty);
    }
    r := CheckOrder(steps);
    if r.Some? {
      return;
    }
    r := CheckMasks(steps);
    if r.Some? {
      return;
    }
    r := CheckTargets(steps);
  }

  // ── Against the connections ──

  function FindProfile(profiles: seq<Profile>, id: Id): (r: Option<Profile>)
    ensures r.Some? ==> r.value in profiles && r.value.id == id
    ensures r.None? ==> forall p <- profiles :: p.id != id
  {
    if profiles == [] then None
    else if profiles[0].id == id then Some(profiles[0])
    else FindProfile(profiles[1..], id)
  }

  predicate Known(steps: seq<Step>, profiles: seq<Profile>) {
    forall i | 0 <= i < |steps| && NamesProfile(steps[i]) :: FindProfile(profiles, steps[i].profileId).Some?
  }

  /** A restore of what a backup produced goes to the engine that backup came from. */
  predicate EnginesAgree(steps: seq<Step>, profiles: seq<Profile>, i: nat)
    requires i < |steps| && Known(steps, profiles)
  {
    steps[i].Restore? && steps[i].source.PreviousStep? && LastBackup(steps, i).Some? ==>
      FindProfile(profiles, steps[LastBackup(steps, i).value].profileId).value.engine
        == FindProfile(profiles, steps[i].profileId).value.engine
  }

  predicate Runnable(name: string, steps: seq<Step>, profiles: seq<Profile>) {
    && WellFormed(name, steps)
    && Known(steps, profiles)
    && forall i | 0 <= i < |steps| :: EnginesAgree(steps, profiles, i)
  }

  /** The step, counted from 1, is the first to name a profile that is not there. */
  predicate FirstUnknown(step: nat, steps: seq<Step>, profiles: seq<Profile>) {
    && 1 <= step <= |steps| && NamesProfile(steps[step - 1])
    && FindProfile(profiles, steps[step - 1].profileId).None?
    && forall j | 0 <= j < step - 1 && NamesProfile(steps[j]) :: FindProfile(profiles, steps[j].profileId).Some?
  }

  method CheckProfiles(steps: seq<Step>, profiles: seq<Profile>) returns (r: Option<Error>)
    ensures r.None? <==> Known(steps, profiles)
    ensures r.Some? ==>
      && r.value.UnknownProfile? && FirstUnknown(r.value.step, steps, profiles)
  {
    for i := 0 to |steps|
      invariant forall j | 0 <= j < i && NamesProfile(steps[j]) :: FindProfile(profiles, steps[j].profileId).Some?
    {
      if NamesProfile(steps[i]) && FindProfile(profiles, steps[i].profileId).None? {
        return Some(UnknownProfile(i + 1));
      }
    }
    r := None;
  }

  method CheckEngines(steps: seq<Step>, profiles: seq<Profile>) returns (r: Option<Error>)
    requires Known(steps, profiles)
    ensures r.None? <==> forall i | 0 <= i < |steps| :: EnginesAgree(steps, profiles, i)
    ensures r.Some? ==>
      && r.value.EngineMismatch? && 1 <= r.value.restoreStep <= |steps| && 1 <= r.value.backupStep
      && LastBackup(steps, r.value.restoreStep - 1) == Some(r.value.backupStep - 1)
      && !EnginesAgree(steps, profiles, r.value.restoreStep - 1)
      && forall j | 0 <= j < r.value.restoreStep - 1 :: EnginesAgree(steps, profiles, j)
  {
    var carried: Option<(Engine, nat)> := None;
    for i := 0 to |steps|
      invariant carried ==
        match LastBackup(steps, i)
        case None => None
        case Some(b) => Some((FindProfile(profiles, steps[b].profileId).value.engine, b + 1))
      invariant forall j | 0 <= j < i :: EnginesAgree(steps, profiles, j)
    {
      match steps[i] {
        case Backup(profileId, _, _, _, _) =>
          carried := Some((FindProfile(profiles, profileId).value.engine, i + 1));
        case Restore(profileId, PreviousStep, _) =>
          if carried.Some? && carried.value.0 != FindProfile(profiles, profileId).value.engine {
            assert !EnginesAgree(steps, profiles, i);
            return Some(EngineMismatch(carried.value.1, i + 1));
          }
        case _ =>
      }
    }
    r := None;
  }

  /** The first rule that is broken, and the first step that breaks it. */
  ghost predicate Complains(e: Error, name: string, steps: seq<Step>, profiles: seq<Profile>) {
    match e
    case UnknownProfile(step) => WellFormed(name, steps) && FirstUnknown(step, steps, profiles)
    case EngineMismatch(backupStep, restoreStep) =>
      && WellFormed(name, steps) && Known(steps, profiles) && 1 <= restoreStep <= |steps|
      && LastBackup(steps, restoreStep - 1) == Some(backupStep - 1) && !EnginesAgree(steps, profiles, restoreStep - 1)
      && forall j | 0 <= j < restoreStep - 1 :: EnginesAgree(steps, profiles, j)
    case _ => Explains(e, name, steps)
  }

  /** `validate_against`: accepts exactly the pipelines that can run on these connections. */
  method ValidateAgainst(name: string, steps: seq<Step>, profiles: seq<Profile>) returns (r: Option<Error>)
    ensures r.None? <==> Runnable(name, steps, profiles)
    ensures r.Some? ==> Complains(r.value, name, steps, profiles)
  {
    r := ValidateSteps(name, steps);
    if r.Some? {
      return;
    }
    r := CheckProfiles(steps, profiles);
    if r.Some? {
      return;
    }
    r := CheckEngines(steps, profiles);
  }
}
