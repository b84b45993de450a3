/**
 `sync` and `drill`: fixed sequences of operations under a step recorder.

 Each method returns the operations it performed and the recorder calls it made, on
 whatever path it left. What the outside answers is a parameter.
 */
module Syncing {
  import opened Common
  import opened Pipeline
  import opened Steps
  import Text

  datatype SyncError =
    | EngineMismatch
    | UnsafeMasking(database: string)
    | NothingToDrill
    | NotADrillDatabase(name: string)
    | Interrupted
    | Outside(reason: string)

  // ── Sync ──

  datatype SyncRequest = SyncRequest(naming: TargetNaming, masking: seq<MaskRule>, verify: bool, retention: bool)

  /** What the outside answers. Planning the masking answers whether any rule will run. */
  datatype SyncWorld = SyncWorld(
    resolve: Option<string>,
    planMasking: Result<bool, string>,
    backup: Option<string>,
    cancelledAfterBackup: bool,
    push: Result<bool, string>,
    restore: Result<string, string>,
    cancelledAfterRestore: bool,
    mask: Option<string>,
    verify: Result<bool, string>)

  datatype SyncEvent =
    | BackedUp
    | Pushed(copied: bool)
    | Restored(naming: TargetNaming, target: string)
    | Masked(database: string, ok: bool)
    | Verified(passed: bool)
    | Retained

  datatype SyncEnd = Completed(masked: bool, verification: Option<bool>, copied: bool,
    retained: bool) | Stopped(error: SyncError)

  /** The shape of the run, once it is known whether anything will be masked. */
  function SyncPlan(request: SyncRequest, masks: bool): seq<StepKind> {
    [BackupStep, OffsiteStep, RestoreStep]
    + (if masks then [MaskStep] else [])
    + (if request.verify then [VerifyStep] else [])
    + (if request.retention then [RetentionStep] else [])
  }

  /** `validate_masking`. */
  predicate MaskingIsSafe(request: SyncRequest) {
    request.masking == [] || !request.naming.IntoExisting?
  }

  function Rank(e: SyncEvent): nat {
    match e
    case BackedUp => 0
    case Pushed(_) => 1
    case Restored(_, _) => 2
    case Masked(_, _) => 3
    case Verified(_) => 4
    case Retained => 5
  }

  /** Each operation at most once, in the order of the plan. */
  predicate InOrder(events: seq<SyncEvent>) {
    forall i, j | 0 <= i < j < |events| :: Rank(events[i]) < Rank(events[j])
  }

  /** What a mask works on is what this sync restored, and a database it made. */
  predicate MasksItsOwn(events: seq<SyncEvent>) {
    forall i | 0 <= i < |events| && events[i].Masked? ::
      exists r ::
        0 <= r < i && events[r].Restored? && events[r].target == events[i].database && !events[r].naming.IntoExisting?
  }

  /** Old backups go only when this run verified, if it was to, and copied. */
  predicate DeletesOnlyWhenSafe(events: seq<SyncEvent>, verify: bool) {
    forall i | 0 <= i < |events| && events[i].Retained? ::
      && (exists p :: 0 <= p < i && events[p] == Pushed(true))
      && (verify ==> exists v :: 0 <= v < i && events[v] == Verified(true))
  }

  /** When rules will run, nothing is verified or reported before the mask succeeded. */
  predicate MasksFirst(events: seq<SyncEvent>, masks: bool) {
    forall i | 0 <= i < |events| && masks && Rank(events[i]) > 3 ::
      exists m :: 0 <= m < i && events[m].Masked? && events[m].ok
  }

  predicate Sound(events: seq<SyncEvent>, request: SyncRequest, masks: bool) {
    InOrder(events) && MasksItsOwn(events) && DeletesOnlyWhenSafe(events, request.verify) && MasksFirst(events, masks)
  }

  predicate Masks(request: SyncRequest, world: SyncWorld) {
    request.masking != [] && world.planMasking == Ok(true)
  }

  /** What a sync does when nothing stops it. */
  function Trace(request: SyncRequest, world: SyncWorld): seq<SyncEvent> {
    Copied(request, world)
    + (if Masks(request, world) then [Masked(Target(world), world.mask.None?)] else [])
    + (if request.verify then [Verified(world.verify == Ok(true))] else [])
    + (if Deletes(request, world) then [Retained] else [])
  }

  function Target(world: SyncWorld): string {
    if world.restore.Ok? then world.restore.value else []
  }

  function Copied(request: SyncRequest, world: SyncWorld): seq<SyncEvent> {
    [BackedUp, Pushed(world.push == Ok(true)), Restored(request.naming, Target(world))]
  }

  predicate Deletes(request: SyncRequest, world: SyncWorld) {
    request.retention && world.push == Ok(true) && (request.verify ==> world.verify == Ok(true))
  }

  // ── Where a sync stops ──

  /** A stop: why, and how many operations were performed by then. */
  datatype Stop = Stop(error: SyncError, done: nat)

  function Failing(reason: Option<string>, done: nat): Option<Stop> {
    if reason.Some? then Some(Stop(Outside(reason.value), done)) else None
  }

  function FailingAs<T>(answer: Result<T, string>, done: nat): Option<Stop> {
    if answer.Err? then Some(Stop(Outside(answer.error), done)) else None
  }

  function Cancelled(cancelled: bool, done: nat): Option<Stop> {
    if cancelled then Some(Stop(Interrupted, done)) else None
  }

  /** What can stop a sync, in the order it comes up, before anything is touched. */
  function Refusals(source: Engine, dest: Engine, request: SyncRequest, world: SyncWorld): seq<Option<Stop>> {
    [if source != dest then Some(Stop(SyncError.EngineMismatch, 0)) else None,
     Failing(world.resolve, 0),
     if !MaskingIsSafe(request) then Some(Stop(UnsafeMasking(request.naming.name), 0)) else None,
     if request.masking != [] then FailingAs(world.planMasking, 0) else None]
  }

  /** Until the copy is restored. */
  function Setbacks(world: SyncWorld): seq<Option<Stop>> {
    [Failing(world.backup, 0),
     Cancelled(world.cancelledAfterBackup, 1),
     FailingAs(world.push, 1),
     FailingAs(world.restore, 2),
     Cancelled(world.cancelledAfterRestore, 3)]
  }

  /** And after that. The mask that failed is among what was done. */
  function LateSetbacks(request: SyncRequest, world: SyncWorld): seq<Option<Stop>> {
    [if Masks(request, world) then Failing(world.mask, 4) else None,
     if request.verify then FailingAs(world.verify, if Masks(request, world) then 4 else 3) else None]
  }

  function Stops(source: Engine, dest: Engine, request: SyncRequest, world: SyncWorld): seq<Option<Stop>> {
    Refusals(source, dest, request, world) + (Setbacks(world) + LateSetbacks(request, world))
  }

  function FirstOf(stops: seq<Option<Stop>>): (r: Option<Stop>)
    ensures r.None? <==> forall i | 0 <= i < |stops| :: stops[i].None?
    ensures r.Some? ==> exists i :: 0 <= i < |stops| && stops[i] == r && forall j | 0 <= j < i :: stops[j].None?
  {
    if stops == [] then None
    else if stops[0].Some? then stops[0]
    else
      var r := FirstOf(stops[1..]);
      assert r.Some? ==> forall i | 0 <= i < |stops[1..]| :: stops[i + 1] == stops[1..][i];
      r
  }

  lemma {:induction false} FirstOfSum(a: seq<Option<Stop>>, b: seq<Option<Stop>>)
    ensures FirstOf(a + b) == if FirstOf(a).Some? then FirstOf(a) else FirstOf(b)
  {
    if a == [] {
      assert a + b == b;
    } else {
      assert (a + b)[1..] == a[1..] + b;
      FirstOfSum(a[1..], b);
    }
  }

  lemma FirstOfUnfolds(first: Option<Stop>, rest: seq<Option<Stop>>)
    ensures FirstOf([first] + rest) == if first.Some? then first else FirstOf(rest)
  {
    assert ([first] + rest)[1..] == rest;
  }

  lemma FirstSetback(world: SyncWorld)
    ensures FirstOf(Setbacks(world)) ==
      if world.backup.Some? then Some(Stop(Outside(world.backup.value), 0))
      else if world.cancelledAfterBackup then Some(Stop(Interrupted, 1))
      else if world.push.Err? then Some(Stop(Outside(world.push.error), 1))
      else if world.restore.Err? then Some(Stop(Outside(world.restore.error), 2))
      else if world.cancelledAfterRestore then Some(Stop(Interrupted, 3))
      else None
  {
    var a := Setbacks(world);
    assert a == [a[0]] + a[1..] && a[1..] == [a[1]] + a[2..] && a[2..] == [a[2]] + a[3..];
    assert a[3..] == [a[3]] + a[4..] && a[4..] == [a[4]] + [];
    FirstOfUnfolds(a[4], []);
    FirstOfUnfolds(a[3], a[4..]);
    FirstOfUnfolds(a[2], a[3..]);
    FirstOfUnfolds(a[1], a[2..]);
    FirstOfUnfolds(a[0], a[1..]);
  }

  lemma FirstLateSetback(request: SyncRequest, world: SyncWorld)
    ensures FirstOf(LateSetbacks(request, world)) ==
      if Masks(request, world) && world.mask.Some? then Some(Stop(Outside(world.mask.value), 4))
      else if request.verify && world.verify.Err?
      then Some(Stop(Outside(world.verify.error), if Masks(request, world) then 4 else 3))
      else None
  {
    var a := LateSetbacks(request, world);
    assert a == [a[0]] + a[1..] && a[1..] == [a[1]] + [];
    FirstOfUnfolds(a[1], []);
    FirstOfUnfolds(a[0], a[1..]);
  }

  lemma FirstRefusal(source: Engine, dest: Engine, request: SyncRequest, world: SyncWorld)
    ensures FirstOf(Refusals(source, dest, request, world)) ==
      if source != dest then Some(Stop(SyncError.EngineMismatch, 0))
      else if world.resolve.Some? then Some(Stop(Outside(world.resolve.value), 0))
      else if !MaskingIsSafe(request) then Some(Stop(UnsafeMasking(request.naming.name), 0))
      else if request.masking != [] && world.planMasking.Err?
      then Some(Stop(Outside(world.planMasking.error), 0))
      else None
  {
    var a := Refusals(source, dest, request, world);
    assert a == [a[0]] + a[1..] && a[1..] == [a[1]] + a[2..] && a[2..] == [a[2]] + a[3..] && a[3..] == [a[3]] + [];
    FirstOfUnfolds(a[3], []);
    FirstOfUnfolds(a[2], a[3..]);
    FirstOfUnfolds(a[1], a[2..]);
    FirstOfUnfolds(a[0], a[1..]);
  }

  lemma StopsInOrder(source: Engine, dest: Engine, request: SyncRequest, world: SyncWorld)
    ensures FirstOf(Stops(source, dest, request, world)) ==
      if FirstOf(Refusals(source, dest, request, world)).Some? then FirstOf(Refusals(source, dest, request, world))
      else if FirstOf(Setbacks(world)).Some? then FirstOf(Setbacks(world))
      else FirstOf(LateSetbacks(request, world))
  {
    FirstOfSum(Refusals(source, dest, request, world), Setbacks(world) + LateSetbacks(request, world));
    FirstOfSum(Setbacks(world), LateSetbacks(request, world));
  }

  /** A sync completes exactly if nothing refuses it, nothing it needs fails, and nobody cancels between two steps. */
  lemma SyncCompletesExactly(source: Engine, dest: Engine, request: SyncRequest, world: SyncWorld)
    ensures FirstOf(Stops(source, dest, request, world)).None? <==>
      && source == dest && world.resolve.None?
      && (request.masking != [] ==> !request.naming.IntoExisting? && world.planMasking.Ok?)
      && world.backup.None? && !world.cancelledAfterBackup && world.push.Ok? && world.restore.Ok?
      && !world.cancelledAfterRestore
      && (request.masking != [] && world.planMasking == Ok(true) ==> world.mask.None?)
      && (request.verify ==> world.verify.Ok?)
  {
    StopsInOrder(source, dest, request, world);
    FirstRefusal(source, dest, request, world);
    FirstSetback(world);
    FirstLateSetback(request, world);
  }

  /** The checks before the first step, and whether there is masking to do. */
  method CheckFirst(source: Engine, dest: Engine, request: SyncRequest, world: SyncWorld)
    returns (stop: Option<SyncError>, masks: bool)
    ensures match FirstOf(Refusals(source, dest, request, world))
      case None => stop == None && masks == Masks(request, world) && MaskingIsSafe(request)
      case Some(s) => stop == Some(s.error) && s.done == 0
  {
    FirstRefusal(source, dest, request, world);
    masks := false;
    if source != dest {
      return Some(SyncError.EngineMismatch), masks;
    }
    if world.resolve.Some? {
      return Some(Outside(world.resolve.value)), masks;
    }
    if request.masking != [] {
      if request.naming.IntoExisting? {
        return Some(UnsafeMasking(request.naming.name)), masks;
      }
      if world.planMasking.Err? {
        return Some(Outside(world.planMasking.error)), masks;
      }
      masks := world.planMasking.value;
    }
    stop := None;
  }

  /** One more call of the recorder. */
  method Add(ghost plan: seq<StepKind>, calls: seq<Call>, ghost cursor: nat, ghost open: bool, c: Call)
    returns (r: seq<Call>)
    requires OnPlan(plan, calls, cursor, open) && MayCall(plan, cursor, open, c)
    ensures r == calls + [c]
    ensures OnPlan(plan, r, if c.Begin? || c.Skip? then cursor + 1 else cursor, c.Begin? || c.Nested?)
  {
    OneMore(plan, 0, false, calls, c);
    r := calls + [c];
  }

  /** Backup, off-site copy, restore. */
  method CopyAndRestore(request: SyncRequest, world: SyncWorld, ghost plan: seq<StepKind>)
    returns (stop: Option<SyncError>, events: seq<SyncEvent>, calls: seq<Call>)
    requires |plan| >= 3 && plan[0] == BackupStep && plan[1] == OffsiteStep && plan[2] == RestoreStep
    ensures Follows(plan, 0, false, calls)
    ensures events <= Copied(request, world)
    ensures stop.None? ==>
      events == Copied(request, world) && OnPlan(plan, calls, 3, false) && world.push.Ok? && world.restore.Ok?
    ensures match FirstOf(Setbacks(world))
      case None => stop == None
      case Some(s) => stop == Some(s.error) && |events| == s.done
  {
    FirstSetback(world);
    events, calls := [], [];
    calls := Add(plan, calls, 0, false, Begin(BackupStep));
    if world.backup.Some? {
      return Some(Outside(world.backup.value)), events, calls;
    }
    events := [BackedUp];
    calls := Add(plan, calls, 1, true, Done);
    if world.cancelledAfterBackup {
      return Some(Interrupted), events, calls;
    }

    calls := Add(plan, calls, 1, false, Begin(OffsiteStep));
    if world.push.Err? {
      return Some(Outside(world.push.error)), events, calls;
    }
    events := events + [Pushed(world.push.value)];
    calls := Add(plan, calls, 2, true, Done);

    calls := Add(plan, calls, 2, false, Begin(RestoreStep));
    if world.restore.Err? {
      return Some(Outside(world.restore.error)), events, calls;
    }
    events := events + [Restored(request.naming, world.restore.value)];
    calls := Add(plan, calls, 3, true, Done);
    stop := if world.cancelledAfterRestore then Some(Interrupted) else None;
  }

  /** Masking, verification and retention, on what was restored. */
  method Finish(request: SyncRequest, world: SyncWorld, masks: bool, target: string, copied: bool,
                ghost plan: seq<StepKind>, calls0: seq<Call>)
    returns (end: SyncEnd, events: seq<SyncEvent>, calls: seq<Call>)
    requires plan == SyncPlan(request, masks) && masks == Masks(request, world) && OnPlan(plan, calls0, 3, false)
    requires world.restore == Ok(target) && world.push == Ok(copied)
    ensures Follows(plan, 0, false, calls)
    ensures Copied(request, world) + events <= Trace(request, world)
    ensures end.Completed? ==>
      Copied(request, world) + events == Trace(request, world) && OnPlan(plan, calls, |plan|, false)
    ensures match FirstOf(LateSetbacks(request, world))
      case None =>
        (request.verify ==> world.verify.Ok?) && end == Completed(masks,
          if request.verify then Some(world.verify.value) else None, copied, Deletes(request, world))
      case Some(s) => end == Stopped(s.error) && 3 + |events| == s.done
  {
    FirstLateSetback(request, world);
    events, calls := [], calls0;
    ghost var cursor := 3;
    if masks {
      calls := Add(plan, calls, cursor, false, Begin(MaskStep));
      cursor := cursor + 1;
      events := events + [Masked(target, world.mask.None?)];
      if world.mask.Some? {
        return Stopped(Outside(world.mask.value)), events, calls;
      }
      calls := Add(plan, calls, cursor, true, Done);
    }

    var verification: Option<bool> := None;
    if request.verify {
      calls := Add(plan, calls, cursor, false, Begin(VerifyStep));
      cursor := cursor + 1;
      if world.verify.Err? {
        return Stopped(Outside(world.verify.error)), events, calls;
      }
      events := events + [Verified(world.verify.value)];
      verification := Some(world.verify.value);
      calls := Add(plan, calls, cursor, true, Done);
    }

    var verified := verification.None? || verification.value;
    var retained := request.retention && verified && copied;
    if retained {
      calls := Add(plan, calls, cursor, false, Begin(RetentionStep));
      cursor := cursor + 1;
      events := events + [Retained];
      calls := Add(plan, calls, cursor, true, Done);
    } else if request.retention {
      calls := Add(plan, calls, cursor, false, Skip(RetentionStep));
      cursor := cursor + 1;
    }
    end := Completed(masks, verification, copied, retained);
  }

  /**
   `sync`. Nothing is touched when the engines differ or masking could not be undone;
   otherwise what was done is a beginning of `Trace`, and all of it when the sync completes.
   */
  method Sync(source: Engine, dest: Engine, request: SyncRequest, world: SyncWorld)
    returns (end: SyncEnd, events: seq<SyncEvent>, plan: seq<StepKind>, calls: seq<Call>)
    ensures match FirstOf(Stops(source, dest, request, world))
      case None =>
        && events == Trace(request, world) && OnPlan(plan, calls, |plan|, false) && world.push.Ok?
        && (request.verify ==> world.verify.Ok?)
        && end == Completed(Masks(request, world), if request.verify then Some(world.verify.value) else None,
             world.push.value, Deletes(request, world))
      case Some(s) => end == Stopped(s.error) && |events| == s.done && events <= Trace(request, world)
    ensures Follows(plan, 0, false, calls)
    ensures plan == if FirstOf(Refusals(source, dest, request, world)).Some? then []
      else SyncPlan(request, Masks(request, world))
    ensures plan == [] ==> calls == []
    ensures plan != [] ==> MaskingIsSafe(request)
    ensures |events| > 4 && Masks(request, world) ==> world.mask.None?
  {
    StopsInOrder(source, dest, request, world);
    events, plan, calls := [], [], [];
    var stop, masks := CheckFirst(source, dest, request, world);
    if stop.Some? {
      return Stopped(stop.value), events, plan, calls;
    }

    plan := SyncPlan(request, masks);
    stop, events, calls := CopyAndRestore(request, world, plan);
    if stop.Some? {
      end := Stopped(stop.value);
    } else {
      var more: seq<SyncEvent>;
      end, more, calls := Finish(request, world, masks, world.restore.value, world.push.value, plan, calls);
      events := events + more;
    }
  }

  /** What each operation of the trace rests on came before it. */
  lemma TraceIsSound(request: SyncRequest, world: SyncWorld)
    requires MaskingIsSafe(request)
    ensures InOrder(Trace(request, world)) && MasksItsOwn(Trace(request, world))
    ensures DeletesOnlyWhenSafe(Trace(request, world), request.verify)
  {
    var t := Trace(request, world);
    assert t[0] == BackedUp && t[1] == Pushed(world.push == Ok(true))
      && t[2] == Restored(request.naming, Target(world));
    var v := if Masks(request, world) then 4 else 3;
    assert request.verify ==> t[v] == Verified(world.verify == Ok(true));
  }

  lemma TraceMasksFirst(request: SyncRequest, world: SyncWorld)
    requires Masks(request, world)
    ensures |Trace(request, world)| > 3 && Trace(request, world)[3] == Masked(Target(world), world.mask.None?)
    ensures forall i | 0 <= i <= 3 :: Rank(Trace(request, world)[i]) == i
  {
  }

  lemma BeginningIsSound(events: seq<SyncEvent>, t: seq<SyncEvent>, verify: bool)
    requires events <= t && InOrder(t) && MasksItsOwn(t) && DeletesOnlyWhenSafe(t, verify)
    ensures InOrder(events) && MasksItsOwn(events) && DeletesOnlyWhenSafe(events, verify)
  {
    assert forall i | 0 <= i < |events| :: events[i] == t[i];
    forall i | 0 <= i < |events| && events[i].Masked?
      ensures exists r ::
        0 <= r < i && events[r].Restored? && events[r].target == events[i].database && !events[r].naming.IntoExisting?
    {
      assert t[i].Masked?;
      var r :| 0 <= r < i && t[r].Restored? && t[r].target == t[i].database && !t[r].naming.IntoExisting?;
      assert events[r] == t[r];
    }
    forall i | 0 <= i < |events| && events[i].Retained?
      ensures exists p :: 0 <= p < i && events[p] == Pushed(true)
      ensures verify ==> exists v :: 0 <= v < i && events[v] == Verified(true)
    {
      assert t[i].Retained?;
      var p :| 0 <= p < i && t[p] == Pushed(true);
      assert events[p] == t[p];
      if verify {
        var v :| 0 <= v < i && t[v] == Verified(true);
        assert events[v] == t[v];
      }
    }
  }

  /** Whatever beginning of the trace a sync got to, it is sound. */
  lemma EveryBeginningIsSound(request: SyncRequest, world: SyncWorld, events: seq<SyncEvent>)
    requires MaskingIsSafe(request) && events <= Trace(request, world)
    requires |events| > 4 && Masks(request, world) ==> world.mask.None?
    ensures Sound(events, request, Masks(request, world))
  {
    TraceIsSound(request, world);
    BeginningIsSound(events, Trace(request, world), request.verify);
    if Masks(request, world) {
      TraceMasksFirst(request, world);
      assert |events| > 4 ==> events[3].Masked? && events[3].ok;
      assert forall i | 0 <= i < |events| && i <= 3 :: events[i] == Trace(request, world)[i];
    }
  }

  // ── Drills ──

  const DRILL_PREFIX := "dbsync_drill"
  const DISCRIMINATOR_LEN := 6

  predicate IsDigit(c: char) { '0' <= c <= '9' }

  predicate IsHexDigit(c: char) { IsDigit(c) || 'a' <= c <= 'f' || 'A' <= c <= 'F' }

  /** `YYYYMMDD_HHMMSS`. */
  predicate IsDrillStamp(stamp: string) {
    |stamp| == 15 && forall i | 0 <= i < 15 :: if i == 8 then stamp[i] == '_' else IsDigit(stamp[i])
  }

  predicate IsDiscriminator(s: string) {
    |s| == DISCRIMINATOR_LEN && forall i | 0 <= i < |s| :: IsHexDigit(s[i])
  }

  /** `is_drill_database`. */
  predicate IsDrillDatabase(name: string) {
    && |name| > |DRILL_PREFIX| && name[..|DRILL_PREFIX|] == DRILL_PREFIX && name[|DRILL_PREFIX|] == '_'
    && var rest := name[|DRILL_PREFIX| + 1..];
       match Text.SplitOnce(rest, '_')
       case Some((head, tail)) =>
         if IsDiscriminator(head) && IsDrillStamp(tail) then true else IsDrillStamp(rest)
       case None => IsDrillStamp(rest)
  }

  /** The characters of a string are all of the given ones. */
  predicate OnlyOf(s: string, characters: string) { forall c <- s :: c in characters }

  predicate IsDate(s: string) { |s| == 8 && OnlyOf(s, "0123456789") }

  predicate IsTime(s: string) { |s| == 6 && OnlyOf(s, "0123456789") }

  predicate IsRunId(s: string) { |s| == 6 && OnlyOf(s, "0123456789abcdefABCDEF") }

  lemma DigitsAre(c: char)
    ensures IsDigit(c) <==> c in "0123456789"
    ensures IsHexDigit(c) <==> c in "0123456789abcdefABCDEF"
  {
  }

  lemma StampsAre(stamp: string)
    ensures IsDrillStamp(stamp) <==> exists day, time :: IsDate(day) && IsTime(time) && stamp == day + "_" + time
  {
    forall c: char ensures IsDigit(c) <==> c in "0123456789" {
      DigitsAre(c);
    }
    if IsDrillStamp(stamp) {
      var day, time := stamp[..8], stamp[9..];
      assert stamp == day + "_" + time && IsDate(day) && IsTime(time);
    }
    if day, time :| IsDate(day) && IsTime(time) && stamp == day + "_" + time {
      forall i | 0 <= i < 15 ensures if i == 8 then stamp[i] == '_' else IsDigit(stamp[i]) {
        assert i < 8 ==> stamp[i] == day[i] && day[i] in day;
        assert i > 8 ==> stamp[i] == time[i - 9] && time[i - 9] in time;
      }
    }
  }

  lemma DiscriminatorsAre(s: string)
    ensures IsDiscriminator(s) <==> IsRunId(s)
  {
    forall i | 0 <= i < |s| ensures IsHexDigit(s[i]) <==> s[i] in "0123456789abcdefABCDEF" {
      DigitsAre(s[i]);
    }
  }

  lemma DrillNameParts(name: string)
    ensures IsDrillDatabase(name) <==>
      || (exists stamp :: IsDrillStamp(stamp) && name == DRILL_PREFIX + ['_'] + stamp)
      || (exists d, stamp :: IsDiscriminator(d) && IsDrillStamp(stamp) && name == DrillPrefix(d) + ['_'] + stamp)
  {
    var p := |DRILL_PREFIX|;
    if IsDrillDatabase(name) {
      var rest := name[p + 1..];
      assert name == DRILL_PREFIX + ['_'] + rest;
      Text.SplitOnceParts(rest, '_');
      var split := Text.SplitOnce(rest, '_');
      if split.Some? && IsDiscriminator(split.value.0) && IsDrillStamp(split.value.1) {
        assert name == DrillPrefix(split.value.0) + ['_'] + split.value.1;
      }
    }
    if stamp :| IsDrillStamp(stamp) && name == DRILL_PREFIX + ['_'] + stamp {
      assert name[p + 1..] == stamp;
      StampSplits(stamp);
    }
    if d, stamp :| IsDiscriminator(d) && IsDrillStamp(stamp) && name == DrillPrefix(d) + ['_'] + stamp {
      assert name[p + 1..] == d + ['_'] + stamp;
      Text.SplitOnceAt(d, stamp, '_');
    }
  }

  /** A name is a drill's exactly when it is the prefix, perhaps six hexadecimal digits, a date and a time. */
  lemma DrillNamesExactly(name: string)
    ensures IsDrillDatabase(name) <==>
      || (exists day, time :: IsDate(day) && IsTime(time) && name == "dbsync_drill_" + (day + "_" + time))
      || (exists d, day, time ::
            IsRunId(d) && IsDate(day) && IsTime(time) && name == "dbsync_drill_" + d + "_" + (day + "_" + time))
  {
    DrillNameParts(name);
    if stamp :| IsDrillStamp(stamp) && name == DRILL_PREFIX + ['_'] + stamp {
      StampsAre(stamp);
    }
    if d, stamp :| IsDiscriminator(d) && IsDrillStamp(stamp) && name == DrillPrefix(d) + ['_'] + stamp {
      StampsAre(stamp);
      DiscriminatorsAre(d);
      assert DrillPrefix(d) == "dbsync_drill_" + d;
    }
    if day, time :| IsDate(day) && IsTime(time) && name == "dbsync_drill_" + (day + "_" + time) {
      StampsAre(day + "_" + time);
    }
    if d, day, time :|
      IsRunId(d) && IsDate(day) && IsTime(time) && name == "dbsync_drill_" + d + "_" + (day + "_" + time) {
      StampsAre(day + "_" + time);
      DiscriminatorsAre(d);
      assert DrillPrefix(d) == "dbsync_drill_" + d;
    }
  }

  lemma StampSplits(stamp: string)
    requires IsDrillStamp(stamp)
    ensures Text.SplitOnce(stamp, '_') == Some((stamp[..8], stamp[9..]))
  {
    assert stamp == stamp[..8] + ['_'] + stamp[9..];
    Text.SplitOnceAt(stamp[..8], stamp[9..], '_');
  }

  /** `drill_prefix`, for one discriminator. */
  function DrillPrefix(discriminator: string): string {
    DRILL_PREFIX + ['_'] + discriminator
  }

  /** What the outside answers a drill. The stamp is the clock's when the name is resolved. */
  datatype DrillWorld = DrillWorld(
    newest: bool,
    manifest: Option<string>,
    discriminator: string,
    stamp: string,
    restore: Option<string>,
    check: Result<bool, string>,
    drop: Option<string>)

  datatype DrillEnd = Drilled(scratch: string, passed: bool, dropped: bool) | DrillStopped(error: SyncError)

  const DRILL_PLAN := [RestoreStep, VerifyStep, CleanupStep]

  function Scratch(world: DrillWorld): string {
    DrillPrefix(world.discriminator) + ['_'] + world.stamp
  }

  /** The name generated is one a drill may drop. */
  lemma ScratchIsADrill(world: DrillWorld)
    requires IsDiscriminator(world.discriminator) && IsDrillStamp(world.stamp)
    ensures IsDrillDatabase(Scratch(world))
    ensures Scratch(world) == "dbsync_drill_" + world.discriminator + "_" + world.stamp
  {
    DrillNameParts(Scratch(world));
  }

  /**
   What can stop a drill, in order, and after how many calls of the recorder. A scratch database
   is dropped unless it failed and is to be kept.
   */
  function DrillSetbacks(keepOnFailure: bool, world: DrillWorld): seq<Option<Stop>> {
    [if !world.newest then Some(Stop(NothingToDrill, 0)) else None,
     Failing(world.manifest, 0),
     Failing(world.restore, 1),
     FailingAs(world.check, 3),
     if world.check == Ok(true) || !keepOnFailure then Failing(world.drop, 5) else None]
  }

  lemma FirstDrillSetback(keepOnFailure: bool, world: DrillWorld)
    ensures FirstOf(DrillSetbacks(keepOnFailure, world)) ==
      if !world.newest then Some(Stop(NothingToDrill, 0))
      else if world.manifest.Some? then Some(Stop(Outside(world.manifest.value), 0))
      else if world.restore.Some? then Some(Stop(Outside(world.restore.value), 1))
      else if world.check.Err? then Some(Stop(Outside(world.check.error), 3))
      else if (world.check == Ok(true) || !keepOnFailure) && world.drop.Some?
      then Some(Stop(Outside(world.drop.value), 5))
      else None
  {
    var a := DrillSetbacks(keepOnFailure, world);
    assert a == [a[0]] + a[1..] && a[1..] == [a[1]] + a[2..] && a[2..] == [a[2]] + a[3..];
    assert a[3..] == [a[3]] + a[4..] && a[4..] == [a[4]] + [];
    FirstOfUnfolds(a[4], []);
    FirstOfUnfolds(a[3], a[4..]);
    FirstOfUnfolds(a[2], a[3..]);
    FirstOfUnfolds(a[1], a[2..]);
    FirstOfUnfolds(a[0], a[1..]);
  }

  /** `drill`: the databases it dropped, and the recorder calls it made. */
  method Drill(keepOnFailure: bool, world: DrillWorld) returns (end: DrillEnd, drops: set<string>, calls: seq<Call>)
    requires IsDiscriminator(world.discriminator) && IsDrillStamp(world.stamp)
    ensures Follows(DRILL_PLAN, 0, false, calls)
    ensures end.Drilled? ==> OnPlan(DRILL_PLAN, calls, |DRILL_PLAN|, false)
    ensures forall name <- drops :: IsDrillDatabase(name)
    ensures drops == if end.Drilled? && end.dropped then {Scratch(world)} else {}
    ensures match FirstOf(DrillSetbacks(keepOnFailure, world))
      case None =>
        && world.check.Ok?
        && end == Drilled(Scratch(world), world.check.value, world.check.value || !keepOnFailure)
      case Some(s) => end == DrillStopped(s.error) && |calls| == s.done
  {
    FirstDrillSetback(keepOnFailure, world);
    calls, drops := [], {};
    if !world.newest {
      return DrillStopped(NothingToDrill), drops, calls;
    }
    if world.manifest.Some? {
      return DrillStopped(Outside(world.manifest.value)), drops, calls;
    }
    var plan := DRILL_PLAN;

    calls := Add(plan, calls, 0, false, Begin(RestoreStep));
    var scratch := DrillPrefix(world.discriminator) + ['_'] + world.stamp;
    ScratchIsADrill(world);
    if world.restore.Some? {
      return DrillStopped(Outside(world.restore.value)), drops, calls;
    }
    calls := Add(plan, calls, 1, true, Done);

    calls := Add(plan, calls, 1, false, Begin(VerifyStep));
    if world.check.Err? {
      return DrillStopped(Outside(world.check.error)), drops, calls;
    }
    var passed := world.check.value;
    calls := Add(plan, calls, 2, true, Done);

    var keep := !passed && keepOnFailure;
    if keep {
      calls := Add(plan, calls, 2, false, Skip(CleanupStep));
    } else {
      calls := Add(plan, calls, 2, false, Begin(CleanupStep));
      if !IsDrillDatabase(scratch) {
        return DrillStopped(NotADrillDatabase(scratch)), drops, calls;
      }
      if world.drop.Some? {
        return DrillStopped(Outside(world.drop.value)), drops, calls;
      }
      drops := {scratch};
      calls := Add(plan, calls, 3, true, Done);
    }
    end := Drilled(scratch, passed, !keep);
  }
}
