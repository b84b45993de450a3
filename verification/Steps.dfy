/**
 The step recorder of a composite job.

 `Job` holds what a recorder writes: the rows of the job in the store and the mark on the
 job's context. `StepRecorder` is the object of the engine, with its cursor. Its methods
 are proved against `BeginBook`, `CloseBook` and `PlanBook`, which are functions of the
 book; the theorems are about replaying a list of calls on a book.
 */
module Steps {
  import opened Common

  datatype StepKind =
    | BackupStep | RestoreStep | VerifyStep | MaskStep
    | OffsiteStep | RetentionStep | DrillStep | CleanupStep

  datatype StepOutcome = Success | Failed | Skipped | Cancelled

  datatype Row = Row(kind: StepKind, started: bool, outcome: Option<StepOutcome>)

  datatype StepMark = StepMark(index: nat, total: nat)

  predicate Pending(r: Row) { !r.started && r.outcome.None? }
  predicate Running(r: Row) { r.started && r.outcome.None? }
  predicate Terminal(r: Row) { r.outcome.Some? }

  /** The rows of one job and the mark on its context. */
  datatype Book = Book(rows: seq<Row>, mark: Option<StepMark>)

  function Planned(plan: seq<StepKind>): (rows: seq<Row>)
    ensures |rows| == |plan| && forall i | 0 <= i < |plan| :: rows[i] == Row(plan[i], false, None)
  {
    if plan == [] then [] else [Row(plan[0], false, None)] + Planned(plan[1..])
  }

  /** `plan_job_steps` replaces whatever rows the job had. */
  function PlanBook(b: Book, plan: seq<StepKind>, stored: bool): Book {
    if stored then b.(rows := Planned(plan)) else b
  }

  /** `begin_job_step`: an update of the row with that number, if there is one. */
  function BeginBook(b: Book, number: nat, total: nat, stored: bool): Book {
    Book(
      if stored && 1 <= number <= |b.rows| then b.rows[number - 1 := b.rows[number - 1].(started := true)] else b.rows,
      Some(StepMark(number, total)))
  }

  function CloseBook(b: Book, number: nat, outcome: StepOutcome, stored: bool): Book {
    Book(
      if stored
        && 1 <= number <= |b.rows| then b.rows[number - 1 := b.rows[number - 1].(outcome := Some(outcome))] else b.rows,
      None)
  }

  class Job {
    var rows: seq<Row>
    var mark: Option<StepMark>

    function Contents(): Book
      reads this
    {
      Book(rows, mark)
    }

    constructor ()
      ensures Contents() == Book([], None)
    {
      rows := [];
      mark := None;
    }

    method Write(b: Book)
      modifies this
      ensures Contents() == b
    {
      rows := b.rows;
      mark := b.mark;
    }

    /** `close_open_steps`, at the end of a job that did not succeed. */
    method CloseOpen(outcome: StepOutcome)
      modifies this
      ensures Contents() == old(Contents()).(rows := Settled(old(rows), outcome))
    {
      var settled: seq<Row> := [];
      var i := 0;
      while i < |rows|
        invariant 0 <= i <= |rows| && rows == old(rows) && mark == old(mark)
        invariant settled == Settled(rows[..i], outcome)
      {
        assert rows[..i + 1][..i] == rows[..i];
        settled := settled + [SettledRow(rows[i], outcome)];
        i := i + 1;
      }
      assert rows[..i] == rows;
      rows := settled;
    }
  }

  /** The running row takes the outcome; the ones never reached are skipped. */
  function SettledRow(r: Row, outcome: StepOutcome): Row {
    if Terminal(r) then r else if r.started then r.(outcome := Some(outcome)) else r.(outcome := Some(Skipped))
  }

  function Settled(rows: seq<Row>, outcome: StepOutcome): seq<Row> {
    if rows == [] then [] else Settled(rows[..|rows| - 1], outcome) + [SettledRow(rows[|rows| - 1], outcome)]
  }

  lemma {:induction false} SettledAt(rows: seq<Row>, outcome: StepOutcome, i: nat)
    requires i < |rows|
    ensures |Settled(rows, outcome)| == |rows| && Settled(rows, outcome)[i] == SettledRow(rows[i], outcome)
  {
    if i < |rows| - 1 {
      SettledAt(rows[..|rows| - 1], outcome, i);
    } else if |rows| > 1 {
      SettledAt(rows[..|rows| - 1], outcome, 0);
    }
  }

  /** Store writes may fail; each call says whether its write was stored. A failed write changes no row. */
  class StepRecorder {
    const job: Job
    const plan: seq<StepKind>
    const enabled: bool
    var cursor: nat

    /** Plans the rows of the operation; one that runs within a step of another plans nothing. */
    constructor (job: Job, plan: seq<StepKind>, stored: bool)
      modifies job
      ensures this.job == job && this.plan == plan && cursor == 0
      ensures enabled == old(job.mark).None?
      ensures job.Contents() == if enabled then PlanBook(old(job.Contents()), plan, stored) else old(job.Contents())
    {
      this.job := job;
      this.plan := plan;
      enabled := job.mark.None?;
      cursor := 0;
      new;
      if enabled {
        job.Write(PlanBook(job.Contents(), plan, stored));
      }
    }

    ghost function Value(): Recorder
      reads this
    {
      Recorder(plan, cursor, enabled)
    }

    method Begin(stored: bool)
      modifies this, job
      ensures Value() == old(Value()).Begun()
      ensures job.Contents() == old(Value()).BeginOn(old(job.Contents()), stored)
    {
      if !enabled {
        return;
      }
      var index := cursor;
      cursor := cursor + 1;
      if index >= |plan| {
        return;
      }
      job.Write(BeginBook(job.Contents(), index + 1, |plan|, stored));
    }

    method Close(outcome: StepOutcome, stored: bool)
      modifies job
      ensures Value() == old(Value())
      ensures job.Contents() == Value().CloseOn(old(job.Contents()), outcome, stored)
    {
      if !enabled || cursor == 0 {
        return;
      }
      job.Write(CloseBook(job.Contents(), cursor, outcome, stored));
    }

    method Done(stored: bool)
      modifies job
      ensures Value() == old(Value())
      ensures job.Contents() == Value().CloseOn(old(job.Contents()), Success, stored)
    {
      Close(Success, stored);
    }

    /** The next row of the plan goes straight to its end, without having been open. */
    method Skip(beginStored: bool, closeStored: bool)
      modifies this, job
      ensures Value() == old(Value()).Begun()
      ensures job.Contents() ==
        Value().CloseOn(old(Value()).BeginOn(old(job.Contents()), beginStored), Skipped, closeStored)
    {
      Begin(beginStored);
      Close(Skipped, closeStored);
    }
  }

  // ── Replaying the calls ──

  /** A recorder as a value. */
  datatype Recorder = Recorder(plan: seq<StepKind>, cursor: nat, enabled: bool)
  {
    function Begun(): Recorder {
      if enabled then this.(cursor := cursor + 1) else this
    }

    function BeginOn(b: Book, stored: bool): Book {
      if enabled && cursor < |plan| then BeginBook(b, cursor + 1, |plan|, stored) else b
    }

    function CloseOn(b: Book, outcome: StepOutcome, stored: bool): Book {
      if enabled && cursor != 0 then CloseBook(b, cursor, outcome, stored) else b
    }
  }

  /** The calls an operation makes. A nested operation starts a recorder of its own on the same job. */
  datatype Call =
    | Begin(kind: StepKind)
    | Done
    | Skip(kind: StepKind)
    | Nested(plan: seq<StepKind>, calls: seq<Call>)

  function StartOn(b: Book, plan: seq<StepKind>): (Recorder, Book) {
    (Recorder(plan, 0, b.mark.None?), if b.mark.None? then PlanBook(b, plan, true) else b)
  }

  /** The book after the calls, when every write is stored. */
  function Replay(r: Recorder, b: Book, calls: seq<Call>): (Recorder, Book)
    decreases calls
  {
    if calls == [] then (r, b) else
    match calls[0]
    case Begin(_) => Replay(r.Begun(), r.BeginOn(b, true), calls[1..])
    case Done => Replay(r, r.CloseOn(b, Success, true), calls[1..])
    case Skip(_) => Replay(r.Begun(), r.Begun().CloseOn(r.BeginOn(b, true), Skipped, true), calls[1..])
    case Nested(plan, inner) =>
      var started := StartOn(b, plan);
      Replay(r, Replay(started.0, started.1, inner).1, calls[1..])
  }

  /**
   The calls follow the plan: the k-th `begin` or `skip` has the k-th planned kind, a step
   is closed before the next, and a nested operation runs inside an open step.
   */
  predicate Follows(plan: seq<StepKind>, cursor: nat, open: bool, calls: seq<Call>)
    decreases |calls|
  {
    if calls == [] then true else
    match calls[0]
    case Begin(kind) =>
      !open && cursor < |plan| && plan[cursor] == kind && Follows(plan, cursor + 1, true, calls[1..])
    case Done => open && Follows(plan, cursor, false, calls[1..])
    case Skip(kind) =>
      !open && cursor < |plan| && plan[cursor] == kind && Follows(plan, cursor + 1, false, calls[1..])
    case Nested(_, _) => open && Follows(plan, cursor, open, calls[1..])
  }

  /** How many steps have been begun or skipped, and whether one is still open. */
  function CursorAfter(cursor: nat, calls: seq<Call>): nat
    decreases |calls|
  {
    if calls == [] then cursor
    else CursorAfter(if calls[0].Begin? || calls[0].Skip? then cursor + 1 else cursor, calls[1..])
  }

  function OpenAfter(open: bool, calls: seq<Call>): bool
    decreases |calls|
  {
    if calls == [] then open
    else OpenAfter(if calls[0].Begin? then true else if calls[0].Nested? then open else false, calls[1..])
  }

  /** Rows of the plan: terminal up to the cursor, except the open one, then pending. */
  ghost predicate Shape(plan: seq<StepKind>, cursor: nat, open: bool, b: Book) {
    && |b.rows| == |plan| && cursor <= |plan| && (open ==> 0 < cursor)
    && (forall i | 0 <= i < |plan| :: b.rows[i].kind == plan[i])
    && (forall i | 0 <= i < (if open then cursor - 1 else cursor) :: Terminal(b.rows[i]))
    && (open ==> Running(b.rows[cursor - 1]))
    && (forall i | cursor <= i < |plan| :: Pending(b.rows[i]))
    && b.mark == if open then Some(StepMark(cursor, |plan|)) else None
  }

  /** An operation nested inside a step changes no row and no mark, whatever it plans and calls. */
  lemma {:induction false} NestedIsSilent(b: Book, plan: seq<StepKind>, calls: seq<Call>)
    requires b.mark.Some?
    ensures var started := StartOn(b, plan); Replay(started.0, started.1, calls).1 == b
  {
    SilentReplay(StartOn(b, plan).0, b, calls);
  }

  lemma {:induction false} SilentReplay(r: Recorder, b: Book, calls: seq<Call>)
    requires !r.enabled && b.mark.Some?
    ensures Replay(r, b, calls) == (r, b)
    decreases calls
  {
    if calls != [] {
      if calls[0].Nested? {
        SilentReplay(StartOn(b, calls[0].plan).0, b, calls[0].calls);
      }
      SilentReplay(r, b, calls[1..]);
    }
  }

  /** Calls that follow the plan leave a terminal prefix, at most one running row, and pending rows. */
  lemma {:induction false} FollowingKeepsShape(plan: seq<StepKind>, cursor: nat, open: bool, b: Book, calls: seq<Call>)
    requires Shape(plan, cursor, open, b) && Follows(plan, cursor, open, calls)
    ensures var end := Replay(Recorder(plan, cursor, true), b, calls);
      && end.0 == Recorder(plan, CursorAfter(cursor, calls), true)
      && Shape(plan, CursorAfter(cursor, calls), OpenAfter(open, calls), end.1)
    decreases |calls|
  {
    if calls != [] {
      var r := Recorder(plan, cursor, true);
      var rest := calls[1..];
      match calls[0]
      case Begin(_) => FollowingKeepsShape(plan, cursor + 1, true, r.BeginOn(b, true), rest);
      case Done => FollowingKeepsShape(plan, cursor, false, r.CloseOn(b, Success, true), rest);
      case Skip(_) =>
        FollowingKeepsShape(plan, cursor + 1, false, r.Begun().CloseOn(r.BeginOn(b, true), Skipped, true), rest);
      case Nested(inner, calls') =>
        NestedIsSilent(b, inner, calls');
        FollowingKeepsShape(plan, cursor, open, b, rest);
    }
  }

  /** How each step that was closed ended, in order. */
  function Verdicts(calls: seq<Call>): seq<StepOutcome>
    decreases |calls|
  {
    if calls == [] then []
    else (if calls[0].Done? then [Success] else if calls[0].Skip? then [Skipped] else []) + Verdicts(calls[1..])
  }

  lemma {:induction false} VerdictsOfSum(a: seq<Call>, b: seq<Call>)
    ensures Verdicts(a + b) == Verdicts(a) + Verdicts(b)
    decreases |a|
  {
    if a == [] {
      assert a + b == b;
    } else {
      assert (a + b)[1..] == a[1..] + b;
      VerdictsOfSum(a[1..], b);
    }
  }

  function Closed(cursor: nat, open: bool): int { if open then cursor - 1 else cursor }

  /** What one call does: the rows closed before keep their outcomes, and one that is closed gets its own. */
  ghost predicate Writes(plan: seq<StepKind>, cursor: nat, open: bool, b: Book, c: Call, after: Book) {
    && |after.rows| == |b.rows| == |plan| && 0 <= Closed(cursor, open) <= |plan|
    && (forall i | 0 <= i < Closed(cursor, open) :: after.rows[i].outcome == b.rows[i].outcome)
    && (c.Done? || c.Skip? ==>
          && Closed(cursor, open) < |plan|
          && after.rows[Closed(cursor, open)].outcome == Some(if c.Done? then Success else Skipped))
  }

  lemma CallWrites(plan: seq<StepKind>, cursor: nat, open: bool, b: Book, c: Call, after: Book)
    requires Shape(plan, cursor, open, b) && Follows(plan, cursor, open, [c])
    requires after == Replay(Recorder(plan, cursor, true), b, [c]).1
    ensures Writes(plan, cursor, open, b, c, after)
    ensures Shape(plan, CursorAfter(cursor, [c]), OpenAfter(open, [c]), after)
    ensures Replay(Recorder(plan, cursor, true), b, [c]).0 == Recorder(plan, CursorAfter(cursor, [c]), true)
  {
    FollowingKeepsShape(plan, cursor, open, b, [c]);
    if c.Nested? {
      NestedIsSilent(b, c.plan, c.calls);
    }
  }

  lemma ReplayUnfolds(r: Recorder, b: Book, c: Call, rest: seq<Call>)
    ensures Replay(r, b, [c] + rest) == Replay(Replay(r, b, [c]).0, Replay(r, b, [c]).1, rest)
    ensures Verdicts([c] + rest) == (if c.Done? then [Success] else if c.Skip? then [Skipped] else []) + Verdicts(rest)
  {
    assert ([c] + rest)[1..] == rest && [c][1..] == [];
  }

  lemma FollowsUnfolds(plan: seq<StepKind>, cursor: nat, open: bool, c: Call, rest: seq<Call>)
    ensures Follows(plan, cursor, open, [c] + rest) <==>
      Follows(plan, cursor, open, [c]) && Follows(plan, CursorAfter(cursor, [c]), OpenAfter(open, [c]), rest)
    ensures CursorAfter(cursor, [c] + rest) == CursorAfter(CursorAfter(cursor, [c]), rest)
    ensures OpenAfter(open, [c] + rest) == OpenAfter(OpenAfter(open, [c]), rest)
    ensures CursorAfter(cursor, [c]) == cursor + if c.Begin? || c.Skip? then 1 else 0
    ensures OpenAfter(open, [c]) == if c.Begin? then true else if c.Nested? then open else false
  {
    assert ([c] + rest)[1..] == rest && [c][1..] == [];
  }

  /** The rows closed by these calls have these outcomes, from this row on. */
  ghost predicate Carry(b: Book, before: Book, from: int, verdicts: seq<StepOutcome>) {
    && 0 <= from && from + |verdicts| <= |b.rows| == |before.rows|
    && (forall i | 0 <= i < from :: b.rows[i].outcome == before.rows[i].outcome)
    && forall i | 0 <= i < |verdicts| :: b.rows[from + i].outcome == Some(verdicts[i])
  }

  lemma CarriesOn(plan: seq<StepKind>, cursor: nat, open: bool, b: Book, c: Call, after: Book, end: Book,
                  verdicts: seq<StepOutcome>)
    requires Writes(plan, cursor, open, b, c, after) && Follows(plan, cursor, open, [c])
    requires Carry(end, after, Closed(CursorAfter(cursor, [c]), OpenAfter(open, [c])), verdicts)
    ensures Carry(end, b, Closed(cursor, open),
      (if c.Done? then [Success] else if c.Skip? then [Skipped] else []) + verdicts)
  {
    FollowsUnfolds(plan, cursor, open, c, []);
  }

  /** Rows closed before keep their outcomes, and the next ones get those of the calls, in order. */
  lemma {:induction false} VerdictsAreWritten(plan: seq<StepKind>, cursor: nat, open: bool, b: Book, calls: seq<Call>)
    requires Shape(plan, cursor, open, b) && Follows(plan, cursor, open, calls)
    ensures Carry(Replay(Recorder(plan, cursor, true), b, calls).1, b, Closed(cursor, open), Verdicts(calls))
    ensures Closed(CursorAfter(cursor, calls), OpenAfter(open, calls)) == Closed(cursor, open) + |Verdicts(calls)|
    decreases |calls|
  {
    if calls != [] {
      var r, c, rest := Recorder(plan, cursor, true), calls[0], calls[1..];
      assert calls == [c] + rest;
      var after := Replay(r, b, [c]).1;
      FollowsUnfolds(plan, cursor, open, c, rest);
      CallWrites(plan, cursor, open, b, c, after);
      ReplayUnfolds(r, b, c, rest);
      VerdictsAreWritten(plan, CursorAfter(cursor, [c]), OpenAfter(open, [c]), after, rest);
      CarriesOn(plan, cursor, open, b, c, after, Replay(r, b, calls).1, Verdicts(rest));
    }
  }

  /** The rows of a whole operation started outside any step. */
  lemma RowsOfOperation(before: seq<Row>, plan: seq<StepKind>, calls: seq<Call>)
    requires Follows(plan, 0, false, calls)
    ensures var started := StartOn(Book(before, None), plan);
      var end := Replay(started.0, started.1, calls).1;
      && Shape(plan, CursorAfter(0, calls), OpenAfter(false, calls), end)
      && (CursorAfter(0, calls) == |plan| && !OpenAfter(false, calls) ==>
        forall i | 0 <= i < |plan| :: Terminal(end.rows[i]))
      && |Verdicts(calls)| <= |end.rows|
      && forall i | 0 <= i < |Verdicts(calls)| :: end.rows[i].outcome == Some(Verdicts(calls)[i])
  {
    var started := StartOn(Book(before, None), plan);
    FollowingKeepsShape(plan, 0, false, started.1, calls);
    VerdictsAreWritten(plan, 0, false, started.1, calls);
  }

  /**
   After a job that failed or was cancelled, no row is left open: the one that was running
   carries the outcome, every later one is skipped, and the finished ones are as they were.
   */
  lemma ClosingSettlesEveryRow(plan: seq<StepKind>, cursor: nat, open: bool, b: Book, outcome: StepOutcome)
    requires Shape(plan, cursor, open, b)
    ensures var rows := Settled(b.rows, outcome);
      && |rows| == |b.rows|
      && forall i | 0 <= i < |rows| ::
           rows[i].outcome ==
             if i < cursor - 1 || (i < cursor && !open) then b.rows[i].outcome
             else if i < cursor then Some(outcome)
             else Some(Skipped)
  {
    forall i | 0 <= i < |b.rows| ensures |Settled(b.rows, outcome)| == |b.rows|
      && Settled(b.rows, outcome)[i] == SettledRow(b.rows[i], outcome) {
      SettledAt(b.rows, outcome, i);
    }
  }

  // ── Building call lists ──

  lemma {:induction false} FollowsThrough(plan: seq<StepKind>, cursor: nat, open: bool, first: seq<Call>,
                                          second: seq<Call>)
    requires Follows(plan, cursor, open, first)
    requires Follows(plan, CursorAfter(cursor, first), OpenAfter(open, first), second)
    ensures Follows(plan, cursor, open, first + second)
    ensures CursorAfter(cursor, first + second) == CursorAfter(CursorAfter(cursor, first), second)
    ensures OpenAfter(open, first + second) == OpenAfter(OpenAfter(open, first), second)
    decreases |first|
  {
    if first == [] {
      assert first + second == second;
    } else {
      var c := if first[0].Begin? || first[0].Skip? then cursor + 1 else cursor;
      var o := if first[0].Begin? then true else if first[0].Nested? then open else false;
      FollowsThrough(plan, c, o, first[1..], second);
      assert (first + second)[1..] == first[1..] + second;
    }
  }

  /** The calls so far follow the plan, and stand at this cursor. */
  predicate OnPlan(plan: seq<StepKind>, calls: seq<Call>, cursor: nat, open: bool) {
    Follows(plan, 0, false, calls) && CursorAfter(0, calls) == cursor && OpenAfter(false, calls) == open
  }

  predicate MayCall(plan: seq<StepKind>, cursor: nat, open: bool, c: Call) {
    match c
    case Begin(kind) => !open && cursor < |plan| && plan[cursor] == kind
    case Skip(kind) => !open && cursor < |plan| && plan[cursor] == kind
    case Done => open
    case Nested(_, _) => open
  }

  lemma {:induction false} OneMore(plan: seq<StepKind>, cursor: nat, open: bool, calls: seq<Call>, c: Call)
    requires Follows(plan, cursor, open, calls) && MayCall(plan, CursorAfter(cursor, calls), OpenAfter(open, calls), c)
    ensures Follows(plan, cursor, open, calls + [c])
    ensures CursorAfter(cursor, calls + [c]) == CursorAfter(cursor, calls) + if c.Begin? || c.Skip? then 1 else 0
    ensures OpenAfter(open, calls + [c]) == (c.Begin? || c.Nested?)
    decreases |calls|
  {
    if calls == [] {
      assert calls + [c] == [c] && [c][1..] == [];
    } else {
      assert (calls + [c])[1..] == calls[1..] + [c];
      var cursor' := if calls[0].Begin? || calls[0].Skip? then cursor + 1 else cursor;
      var open' := if calls[0].Begin? then true else if calls[0].Nested? then open else false;
      OneMore(plan, cursor', open', calls[1..], c);
    }
  }
}
