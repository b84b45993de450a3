# DBSync engine: a verified model

DBSync backs databases up, restores them, masks copies, ships artifacts off-site, and does all of that
on schedules. This project models the decisions of its engine in Dafny and proves what they promise.

- **Cron and zones** (`Calendar`, `Zones`, `Cron`, `CronZones`, `CronBudget`, `CronParse`, `CronText`,
  `CronMeaning`, `CronRefusals`). A bit set is the set of its positions. A zone is a total reading of
  instants and a partial resolution of wall times. The skipping scan refines the naive one; the parser's
  loops are proved against the progressions their text denotes, and the parser against texts written
  down independently of it, right and wrong.
- **Schedules** (`Schedule`, `ScheduleRuns`, `ScheduleZones`, `ScheduleClocks`, `MakeUps`). Lists of
  ticks, each asking whether the schedule is due, against the firings of the interval.
- **The scheduler** (`Scheduler`, `SchedulerLaws`, `SchedulerOrder`). The reservation set as an object,
  and the protocol cut at its await points, over all interleavings of ticks, runs, manual starts and
  edits.
- **Pipelines** (`Pipeline`, `Arming`, `Steps`, `PipelineRun`, `PipelineInputs`, `PipelineLaws`,
  `PipelineEnds`). The validator against rules by position, the step recorder against a replay of its
  calls, and the executor against events by position, for every answer of the outside and every
  cancellation; what each step was given, in the words of the pipeline; and which pipelines can run to
  their end.
- **Masking, sync and drill** (`Masking`, `Syncing`). A server as the number of unmasked rows per
  column; a sync as a beginning of one trace.
- **The DEFINER filter** (`Definer`, `DefinerAccounts`, `DefinerLaws`, `DefinerAgain`). The byte loop
  against a recursive lexer, the accounts that can stand in a clause, and what happens to the output when
  it is read, filtered again, or cut into lines.
- **The digest of a document collection** (`Digest`), **retention** (`Retention`), **table selections**
  (`Selections`).
- **Saved SSH connections and shared configuration** (`SshStore`, `SshAdoption`, `Upserts`, `ShareSsh`,
  `ShareAttach`, `ShareOrder`, `ShareTables`, `ShareTrip`, `Share`, `ShareMeaning`). The store as
  sequences of rows under the rules its operations enforce; import as loops over an object, against rules
  that hold of any keyed table, and field by field.

`Common` and `Text` hold the small shared types and the string operations of Rust's standard library
that the parsers use. `dafny verify dfyconfig.toml` checks everything.

What the outside does (servers, tools, the network, the key store, the clock) is a parameter, and the
theorems hold for all its answers. Where a comment or the documentation of the engine says something
the code does not do, the model follows the code; "Findings" lists those places.

## Model

| member | source | states |
|---|---|---|
| `Zones.ResolveIsEarliestPreimage` | engine/src/cron.rs:64-81 | a wall time in a gap has no instant; any other resolves to the earliest instant that reads as it |
| `Cron.ScanWithinDay` | engine/src/cron.rs:295-335 | the walk over the candidate minutes of one matching day, either way round, answers with the nearest matching minute of that day that exists and is within bounds, or with none |
| `Cron.Scan` | engine/src/cron.rs:267-293 | the scan that skips whole days and tries only listed minutes answers exactly what trying every minute of the window one by one would |
| `Cron.NaiveIsNearest` | engine/src/cron.rs:9-15 | trying minute by minute finds the nearest minute of the window that matches and exists, and finds none exactly when there is none |
| `Cron.NextAfter` | engine/src/cron.rs:236-249 | the loops compute the function the theorems on the next occurrence are about |
| `Cron.PrevAtOrBefore` | engine/src/cron.rs:252-259 | likewise for the previous occurrence |
| `CronMeaning.DayRule` | engine/src/cron.rs:18-23 | with no star in a day field, the dates of an expression are those it has with every weekday under a star, together with those it has with every day of the month under a star; with a star, they are the dates common to both |
| `CronMeaning.ThirteenthThenFriday` | engine/src/cron.rs:18-23 | the example of the rule: `0 0 13 * 5`, asked on 10 January 2026 in UTC, next fires at midnight three days later and then three days after that |
| `CronMeaning.TuesdayAndFriday` | engine/src/cron.rs:187-201 | those two days are Tuesday 13 and Friday 16 January |
| `CronZones.NextIsNearestFiring` | engine/src/cron.rs:203-249 | in any zone: the answer fires, and no firing has a wall time between the question and the answer; none only if the whole window has no firing |
| `CronZones.PrevIsNearestFiring` | engine/src/cron.rs:215-259 | the same backwards |
| `CronZones.NextInFixedZone` | engine/src/cron.rs:203-249 | with a fixed offset: the least firing strictly after the instant, or none in the 1,600-day window |
| `CronZones.PrevInFixedZone` | engine/src/cron.rs:215-259 | with a fixed offset: the greatest firing at or before the instant, or none in the window |
| `CronZones.NextIsStrictlyAfterFirstPass` | engine/src/cron.rs:203-204 | asked at the first reading of a wall time, in any zone, the next firing is strictly later |
| `CronZones.PrevIsNeverLater` | engine/src/cron.rs:215-259 | the previous firing is never after the instant asked about, even in a repeated hour |
| `CronZones.StrictlyAfterInAnyZone` | engine/src/cron.rs:203-204 | the documented "strictly after" holds exactly unless a matching minute later on the wall was first read before now |
| `CronZones.StrictlyAfterExactly` | engine/src/cron.rs:203-204 | with one change of offset that is: unless now is in the repeated hour and a matching minute is still to come in it |
| `CronZones.NextCanBeEarlier` | engine/src/cron.rs:75-81 | an input that fails: asked in the second 01:30, the answer is the first 01:50, forty minutes before |
| `CronZones.IterationVisitsEveryMinuteOnce` | engine/src/cron.rs:64-85 | asking again and again visits every matching wall minute that exists exactly once, by its first reading, in order; never one in a gap |
| `CronZones.IterationIncreases` | engine/src/cron.rs:236-335 | from a first reading the answers strictly increase, and each is a firing |
| `Calendar.CalendarRepeats` | engine/src/cron.rs:187-201 | after 146,097 days the same dates fall on the same weekdays, so an expression that has a date at all has one in every such stretch |
| `CronBudget.NeverExactly` | engine/src/cron.rs:203-207 | for every expression, in any zone: a "never" means that no date exists, as documented, exactly if the window has an occurrence, or the 146,097 days from its start have no matching date |
| `CronBudget.NeverInUtcExactly` | engine/src/cron.rs:203-207 | for whatever parses, in UTC, of minutes: "never" is said only where none comes, exactly under that condition |
| `CronBudget.NeverMeansImpossible` | engine/src/cron.rs:203-207 | for whatever parses, in UTC, "never" means that no date exists, or a century year without leap day is within four years, or the expression asks for some weekdays only with a star in a day field |
| `CronBudget.LeapDayAroundSkippedCentury` | engine/src/cron.rs:142-148 | one family that fails: on 1 March four years before such a century year, an expression for 29 February alone is reported as never |
| `CronBudget.LeapDayAround2100` | engine/src/cron.rs:142-148 | its instance for 2096, whose next leap day is in 2104 |
| `CronBudget.NeverBeforeASunday` | engine/src/cron.rs:203-207 | an input of the other family: 1 January on a Sunday, with a star in the weekday field, asked on 2 January 2017, is reported as never; 1 January 2023 is one |
| `CronParse.Walk` | engine/src/cron.rs:539-543 | the stepping loop ends for every step of 32 bits, wrapping as unsigned addition does, and adds exactly the values walked |
| `CronParse.ParseField` | engine/src/cron.rs:490-551 | the two nested loops over a comma list compute the union of the bits of its entries, or the first error |
| `CronParse.ParseFields` | engine/src/cron.rs:450-483 | five fields, the star flags of the day fields and the weekday fold, or the error of the first bad field |
| `CronParse.Parse` | engine/src/cron.rs:416-432 | the whole parser: shorthands, blank text, and fields |
| `CronParse.WalkedIsProgressionExactly` | engine/src/cron.rs:539-543 | the loop sets exactly the arithmetic progression the entry denotes if and only if the addition does not wrap |
| `CronParse.WrappedEntry` | engine/src/cron.rs:539-543 | an input that fails: 5-31/4294967295 sets 0 to 5 |
| `CronParse.FieldMeansItsProgressions` | engine/src/cron.rs:490-551 | the bits are exactly the values some entry of the list denotes, if and only if every value a wrapping entry collects on its way down is denoted by some entry; a list that parses is never empty |
| `CronParse.FieldIsInRange` | engine/src/cron.rs:490-551 | a field holds a value within its bounds and none above; none below exactly if no wrapping entry walks down past the lower bound |
| `CronParse.ParsedIsWellFormed` | engine/src/cron.rs:416-483 | whatever parses, wrapped or not, each of the five fields holds a value of its own range and none above it, weekdays folded to 0 to 6; so "matches nothing" cannot arise |
| `CronParse.DatesStayInRangeExactly` | engine/src/cron.rs:450-483 | the day of the month and the month hold a 0 exactly if an entry of theirs wraps and walks down to it |
| `CronParse.SundayFolds` | engine/src/cron.rs:466-480 | folding weekday 7 into 0 leaves a non-empty set of days 0 to 6 |
| `CronParse.StoredTextParsesBack` | engine/src/cron.rs:594-605 | parsing the stored text of a parsed expression gives that expression back |
| `CronText.ItemReadsBack` | engine/src/cron.rs:507-537 | an entry written as a star, a value or a span, perhaps with a step, is read as the progression it means; a value may be a number or a name of three letters or more in any case |
| `CronText.FieldReadsBack` | engine/src/cron.rs:490-551 | a comma list of such entries holds exactly the values some entry selects, with the star flag of its first character |
| `CronMeaning.TextReadsBack` | engine/src/cron.rs:450-483 | five written words parse, and each fills its own field |
| `CronMeaning.FiresWhenSelected` | engine/src/cron.rs:187-201 | and the expression matches exactly at the minutes, hours and dates the words select |
| `CronMeaning.PlainTextFires` | engine/src/cron.rs:450-483 | in particular `m h d mo w`, each a star or a number, parses and matches exactly at h:m of the dates of the other three; 7 is Sunday too |
| `CronMeaning.ShorthandFires` | engine/src/cron.rs:434-448 | each shorthand, in any case, matches exactly when its plain form would, and any other name is refused |
| `CronRefusals.BadIsRefused` | engine/src/cron.rs:500-598 | an entry is refused for each mistake with its own complaint: blank, beyond the bounds, longer than 32 bits, nobody's name, backwards, a step of nothing, a step that is no number |
| `CronRefusals.FirstMistakeIsReported` | engine/src/cron.rs:490-551 | a list is refused for its first mistake, whatever stands behind it |
| `CronRefusals.FirstBadWordIsNamed` | engine/src/cron.rs:462-466 | five words are refused for the first that is, by the name of its field |
| `CronRefusals.OtherCountsAreRefused` | engine/src/cron.rs:450-460 | any other number of words is refused; six and seven for what they look like |
| `CronRefusals.EmptyExactly` | engine/src/cron.rs:416-422 | a text is called empty exactly if it is white space |
| `CronRefusals.NoShorthand` | engine/src/cron.rs:434-448 | a name that is no shorthand is refused by name, and `@reboot` with a refusal of its own |
| `ScheduleRuns.FiringsBetweenExactly` | engine/src/cron.rs:9-15 | the list the run theorems speak of is exactly the firings of an interval, ascending |
| `ScheduleRuns.TickStartsWhatIsOwed` | engine/src/schedule.rs:370-394 | from a moment when nothing is owed, a tick starts the latest firing since, if it catches up or the grace has not run out, and again leaves nothing owed |
| `ScheduleRuns.RunStartsWhatIsOwed` | engine/src/schedule.rs:364-394 | for every list of ticks, however far apart: one start per tick at most, the latest firing since the tick before; a sleep of any length yields one make-up run |
| `ScheduleRuns.ExactlyOnceFrom` | engine/src/schedule.rs:320-394 | with ticks at most a minute apart the starts are exactly the firings of the interval, each once, in order, each less than a minute late |
| `ScheduleRuns.ExactlyOnce` | engine/src/schedule.rs:320-394 | the same from any first tick after the creation of the schedule, which may owe one occurrence |
| `ScheduleRuns.TwoMinutesApartLosesAFiring` | engine/src/scheduler.rs:40-45 | an input that fails without the hypothesis: ticks two minutes apart start one of two firings |
| `ScheduleRuns.ShownNextRunIsDue` | engine/src/schedule.rs:397-401 | the next run shown is due at that instant and at none before it |
| `ScheduleClocks.UtcIgnoresTheMachine` | engine/src/cron.rs:215-227 | what a schedule in UTC decides does not depend on the zone of the machine |
| `ScheduleClocks.UtcDueExactly` | engine/src/schedule.rs:370-394 | a schedule in UTC is due for an instant exactly if it is a whole matching minute of UTC after the line, the latest such up to now and within 1,600 days, and it is caught up or no more than 90 seconds ago |
| `ScheduleClocks.LocalDueExactly` | engine/src/schedule.rs:370-394 | a schedule in local time exactly if it is the firing latest on the machine's wall clock, under the same conditions |
| `ScheduleClocks.UtcExactlyOnce` | engine/src/schedule.rs:320-394 | with ticks at most a minute apart, whatever the machine's zone: each matching minute of UTC in the interval is started once, in order, less than a minute late |
| `ScheduleZones.TickKeepsUp` | engine/src/schedule.rs:370-394 | in any zone whose minutes are whole, a tick within a minute of the last starts the firing in between and nothing else |
| `ScheduleZones.ExactlyOnceInAnyZone` | engine/src/schedule.rs:320-394 | exactly once, in order, less than a minute late, across clock changes |
| `ScheduleZones.FixedZonesAreRegular` | engine/src/cron.rs:64-85 | UTC, and any zone with a fixed offset, is one of the zones these results are about |
| `ScheduleZones.DaylightZonesAreRegular` | engine/src/cron.rs:64-85 | a zone whose clocks change at a whole minute is one of those zones |
| `ScheduleZones.SummersAreRegular` | engine/src/cron.rs:64-85 | and so is one with a spring and an autumn change |
| `ScheduleZones.FirstTickCatchesUpExactly` | engine/src/schedule.rs:370-394 | in any such zone, the first tick after the creation or after a sleep of any length leaves the schedule up to date exactly if its scan sees the latest firing since the line; then it starts that firing, unless it is too old |
| `ScheduleZones.ExactlyOnceFromFirstTick` | engine/src/schedule.rs:320-394 | from such a first tick: one make-up run at most, and from then on exactly once, in order, across clock changes |
| `ScheduleZones.DecidedAgainExactly` | engine/src/schedule.rs:370-394 | in any consistent zone, a firing after the line is decided exactly if no later firing has come by the wall clock, the scan reaches it, and it is caught up or within the grace |
| `MakeUps.OneMakeUpInAnyZoneExactly` | engine/src/schedule.rs:239-241 | in any consistent zone, after the tick that makes up for a sleep no later tick makes up for more of it, exactly if no missed firing is later the latest one on the wall clock |
| `MakeUps.OneMakeUpExactly` | engine/src/schedule.rs:239-241 | with one change of the clock that is: exactly if no missed firing is still ahead on the wall clock, or comes back into the 1,600-day window |
| `MakeUps.TwoMakeUpRuns` | engine/src/schedule.rs:239-241 | an input that fails: waking up at the second half past one, two missed firings of the first pass are made up for by two runs |
| `Scheduler.Scheduler.constructor` | engine/src/scheduler.rs:80-89 | no schedule is reserved |
| `Scheduler.Scheduler.Claim` | engine/src/scheduler.rs:185-187 | true exactly if the schedule was free; reserved afterwards either way |
| `Scheduler.Scheduler.Release` | engine/src/scheduler.rs:189-191 | frees that schedule and no other |
| `Scheduler.Scheduler.TickOnce` | engine/src/scheduler.rs:134-162 | the tick loop launches the due and free schedules in order, each once, and reserves exactly those |
| `Scheduler.Scheduler.RunNow` | engine/src/scheduler.rs:171-182 | a manual run claims like any other |
| `Scheduler.TickOnceIsAnInterleaving` | engine/src/scheduler.rs:134-162 | the loop is one of the interleavings of the protocol cut at its await points |
| `Scheduler.TickLaunchesExactly` | engine/src/scheduler.rs:134-162 | a run is launched exactly for a row that is due, of a schedule that is free, and for the occurrence decided of it; of several rows of one schedule, the first that is due |
| `Scheduler.AtMostOneRun` | engine/src/scheduler.rs:134-226 | over every interleaving of ticks, marks, releases and manual starts, no schedule has two runs between claim and release, and the reservations are exactly the runs |
| `Scheduler.StartsAreInOrder` | engine/src/scheduler.rs:134-226 | if marks are stored and no claim is stale, started occurrences of a schedule strictly increase and come after its creation, whatever the clocks read |
| `Scheduler.RunsFromTheStart` | engine/src/scheduler.rs:134-226 | so it is for every such interleaving from an empty store |
| `SchedulerOrder.StaleClaimExactly` | engine/src/scheduler.rs:135-160 | as long as starts are in order, a claim starts something new exactly if its occurrence is later than the line stored now; for a schedule deleted since, later than its last start |
| `SchedulerOrder.OrderFromTheStartExactly` | engine/src/scheduler.rs:134-226 | over every interleaving from an empty store whose marks are stored, starts strictly increase if and only if every claim is ahead of the line at its moment in that sense |
| `Scheduler.StaleClaimFiresTwice` | engine/src/scheduler.rs:135-160 | an interleaving from an empty store that fails: two ticks read the row, and the second claims after the first one has released |
| `Scheduler.LostMarkFiresTwice` | engine/src/scheduler.rs:219-226 | an interleaving from an empty store that fails: the mark is lost, and the next tick starts the occurrence again |
| `SchedulerLaws.LineIsAlwaysBehind` | engine/src/scheduler.rs:211-226 | along every such interleaving a stored line is earlier than a start not yet marked |
| `SchedulerLaws.LostMarkUncoversExactly` | engine/src/scheduler.rs:219-226 | losing a mark leaves a line behind its starts exactly if the run was a tick's and its schedule still exists |
| `SchedulerLaws.LostMarkFiresAgainExactly` | engine/src/scheduler.rs:134-226 | in any consistent zone, after a lost mark, the release and a fresh read, the schedule is free and its occurrence decided again under exactly that condition |
| `SchedulerLaws.StartsAreALog` | engine/src/scheduler.rs:134-226 | the runs of which exactly-once is proved are the logs of the machine in which each run is over before the next read |
| `Pipeline.CheckOrder` | engine/src/pipeline.rs:356-428 | the loop with its running flags accepts exactly if each step has what it needs before it; an error is about the first step that has not, and says what it lacks |
| `Pipeline.CheckMasks` | engine/src/pipeline.rs:430-449 | accepts exactly if no mask follows a restore into an existing database as the nearest one |
| `Pipeline.CheckTargets` | engine/src/pipeline.rs:451-468 | accepts exactly if no two steps replace one database |
| `Pipeline.ValidateSteps` | engine/src/pipeline.rs:356-470 | accepts exactly the well-formed pipelines, and an error names the first step that breaks the first rule that is broken |
| `Pipeline.CheckEngines` | engine/src/pipeline.rs:315-344 | accepts exactly if every restore of a previous step goes to the engine of the nearest earlier backup |
| `Pipeline.ValidateAgainst` | engine/src/pipeline.rs:302-346 | accepts exactly the runnable pipelines; each error says which rule fails, and all rules before it hold |
| `Arming.LinesInvertJoinExactly` | engine/src/pipeline.rs:274-277 | splitting the signature into lines gives the names back exactly if no name has a newline or, but for the last, ends in a carriage return, and the last is not empty |
| `Arming.LinesBeginWithNamesExactly` | engine/src/pipeline.rs:274-277 | and exactly then do the lines begin with the names, for there are never more lines than names |
| `Arming.SignatureIsInjective` | engine/src/pipeline.rs:269-277 | two non-empty lists of names without newlines with one signature are the same list |
| `Arming.SignatureIdentifiesTargetsExactly` | engine/src/pipeline.rs:269-277 | a signature belongs to one list exactly if it has no newline in it |
| `Arming.ChangedTargetsDisarm` | engine/src/pipeline.rs:279-290 | an armed pipeline stays armed by an edit exactly if its list of targets stays the same, names having no newline |
| `Arming.UnattendedRunHoldsEveryName` | engine/src/schedule.rs:349-360 | an unattended run holds each target's name, in order, exactly under the condition above |
| `Steps.StepRecorder.constructor` | engine/src/step.rs:246-269 | the rows are the plan, all pending, unless another recorder is at work on the job |
| `Steps.Job.CloseOpen` | engine/src/store.rs:436-474 | every row without an outcome gets one: the given one if it had begun, skipped if it had not |
| `Steps.StepRecorder.Begin` | engine/src/step.rs:280-314 | closes what is open, then opens the next row and marks the job's context; a nested recorder touches neither |
| `Steps.StepRecorder.Close` | engine/src/step.rs:335-354 | the open row gets its outcome and the mark is taken off |
| `Steps.StepRecorder.Done` | engine/src/step.rs:317-319 | closes it as a success |
| `Steps.StepRecorder.Skip` | engine/src/step.rs:326-333 | opens the next row and closes it as skipped |
| `Steps.NestedIsSilent` | engine/src/step.rs:229-269 | whatever calls a nested recorder gets, no row and no mark changes |
| `Steps.FollowingKeepsShape` | engine/src/step.rs:217-223 | calls that follow the plan keep the cursor on it: closed rows, at most one open, then pending ones |
| `Steps.RowsOfOperation` | engine/src/step.rs:217-223 | an operation that follows its plan to the end leaves every row closed with the outcome its last call gave it; one that stops early leaves a closed beginning, and the mark where it stopped |
| `Steps.ClosingSettlesEveryRow` | engine/src/store.rs:429-474 | after an early end, what was open gets the outcome and what never began is skipped; closed rows stay |
| `PipelineRun.ResolveAll` | engine/src/ops.rs:1176-1233 | the requests of all backups before anything runs, or the error of the first that cannot be resolved |
| `PipelineRun.CoverAll` | engine/src/ops.rs:1235-1262 | masking is planned against the nearest backup before each mask; a mask with none before it is skipped; the lookup never panics |
| `PipelineRun.NextBackIsLastBackup` | engine/src/ops.rs:1239-1249 | the search down the resolved map finds the nearest earlier backup |
| `PipelineRun.Advance` | engine/src/ops.rs:1273-1528 | one turn of the loop: cancelled before the step, stopped by it, or on to the next with the state its events say |
| `PipelineRun.RunPipeline` | engine/src/ops.rs:1153-1531 | for every answer of the outside: refused exactly if validation refuses, and otherwise it never panics or misses a profile; each event is the one its position calls for, and the run ends as they say |
| `PipelineLaws.PreviousStepReplaysNearestBackup` | engine/src/ops.rs:1299-1337 | a restore of the previous step replays the artifact of the nearest earlier backup, on a server of that backup's engine, under the step's own naming |
| `PipelineInputs.BackupIsAsWritten` | engine/src/ops.rs:1176-1233 | a backup is of the step's own profile and database, with the selections its saved plan resolves to, into the step's own directory or else the default |
| `PipelineInputs.UnresolvedMeans` | engine/src/ops.rs:1176-1233 | a backup that cannot be resolved is refused because its saved plan is gone, is for another database now, or because a question about it was not answered |
| `PipelineInputs.RestoreIsAsWritten` | engine/src/ops.rs:1299-1337 | a restore goes to the step's own server under its own naming, from the file it names, the newest of the directory it names, or the nearest earlier backup |
| `PipelineInputs.MaskRunsExactly` | engine/src/ops.rs:1339-1367 | a mask is skipped exactly if its rules cover nothing, and otherwise runs what was planned for it |
| `PipelineInputs.VerifyChecksTheBackupsTables` | engine/src/ops.rs:1369-1426 | a verify checks, as deep as the step says, each table of the nearest earlier backup in the way it was dumped |
| `PipelineInputs.PushSendsTheNearestBackup` | engine/src/ops.rs:1428-1438 | a push sends the artifact of the nearest earlier backup |
| `PipelineInputs.RetentionPrunesWhereTheBackupWent` | engine/src/ops.rs:1440-1475 | retention prunes the directory the nearest earlier backup was written to, under the step's own policy |
| `PipelineInputs.DrillLooksWhereItSays` | engine/src/ops.rs:1477-1515 | a drill looks in its own directory, or where the nearest earlier backup went, or in the default one if there is none |
| `PipelineInputs.OutcomeListsWhatWasMade` | engine/src/ops.rs:1092-1105 | a completed run reports the artifact of each backup and the database of each restore, in the order of the steps |
| `PipelineInputs.OutcomeSaysWhatWasMaskedAndPruned` | engine/src/ops.rs:1092-1105 | and the columns of the last mask that ran, and exactly the files its retentions removed |
| `PipelineInputs.OutcomeSaysWhatWasChecked` | engine/src/ops.rs:1092-1116 | and the verdict of its latest verify, or else of its first drill, with the results of its latest push |
| `PipelineLaws.ConfirmationsMatchExactly` | engine/src/ops.rs:1273-1328 | each destructive step gets its own name exactly if the targets are the beginning of the confirmations; other steps consume none |
| `PipelineLaws.ArmedRunConfirmsEachTarget` | engine/src/scheduler.rs:592-600 | an armed run hands each destructive step its own target's name |
| `PipelineEnds.CompletesExactly` | engine/src/pipeline.rs:302-346 | what validation accepts can run to its end, with restores as documented, exactly if nothing is restored into an existing database of a production server, the typed names begin with those to be replaced, and no two backups of different databases name one saved plan |
| `PipelineEnds.ConfirmedExactly` | engine/src/restore/mod.rs:289-304 | every restore that needs a typed name is handed its own exactly under the first two of these |
| `PipelineEnds.CompletedWasConfirmed` | engine/src/restore/mod.rs:268-304 | in a run that completed, every restore that needed a typed name had its own |
| `PipelineEnds.UnattendedCompletesExactly` | engine/src/schedule.rs:349-360 | what may run unattended can complete exactly if besides its names survive being cut into lines |
| `PipelineEnds.EditedCompletesExactly` | engine/src/store.rs:565-602 | once its steps were edited, a pipeline may run unattended and can complete exactly if it replaces nothing and meets the other two conditions |
| `PipelineEnds.IntoProductionNeverCompletes` | engine/src/ops.rs:1299-1337 | an input that validates and cannot complete, whatever was typed: a restore into an existing production database is handed no name |
| `PipelineEnds.OnePlanTwiceNeverStarts` | engine/src/ops.rs:1190-1212 | another: two backups of different databases with one saved plan, which is for one of them at most |
| `PipelineEnds.DropsCompleteExactly` | engine/src/pipeline.rs:274-277 | a pipeline that replaces these databases from a dump validates and is armed, and can complete exactly if their names survive being cut into lines |
| `PipelineEnds.ArmedWithTheWrongNames` | engine/src/pipeline.rs:274-277 | an input that fails: for a name ending in a carriage return before another, and for one name with a newline, the armed run is handed other names and cannot complete |
| `PipelineLaws.MaskTouchesTheLatestRestore` | engine/src/pipeline.rs:430-449 | a mask runs on what the most recent restore wrote, and that was not a database already there |
| `PipelineLaws.PairedExactly` | engine/src/ops.rs:1239-1262 | the nearest backup is the one the latest restore replays exactly if that restore is of the previous step and no backup comes between |
| `PipelineLaws.MaskPlannedForItsRestoreExactly` | engine/src/ops.rs:1235-1262 | masking is planned from the nearest backup, which is the one being masked under exactly that condition |
| `PipelineLaws.VerifyComparesExactly` | engine/src/ops.rs:1369-1426 | a verify compares the nearest backup's source with the latest restore's target, which belong together under exactly that condition |
| `PipelineLaws.ValidatedButUnpaired` | engine/src/pipeline.rs:356-470 | an input that fails it: a valid pipeline whose mask and verify belong to a different backup |
| `PipelineLaws.VerifyExemptsTheLatestMask` | engine/src/ops.rs:1369-1426 | the tables exempted are those of the latest mask that ran; both speak of one restore exactly if none came between |
| `PipelineLaws.CancelledBetweenRestoreAndMask` | engine/src/ops.rs:1275-1276 | a cancellation between a restore and its mask leaves the restored database, unmasked |
| `PipelineLaws.RetentionDeletesExactly` | engine/src/ops.rs:1440-1475 | retention deletes exactly if the latest verify, or else the first drill, and every copy of the latest push passed |
| `PipelineLaws.SuccessExactly` | engine/src/ops.rs:1107-1116 | a completed run counts as fully successful under the same condition, however many steps were overwritten by later ones |
| `PipelineLaws.RowsFollowTheRun` | engine/src/ops.rs:1264-1528 | on every path the k-th call has the k-th planned kind; a completed run leaves every row closed, skipped exactly where its step did nothing and otherwise a success |
| `Masking.PlanCoverage` | engine/src/mask/mod.rs:326-389 | succeeds exactly if no rule is repeated and each rule on a table with data names a column there; splits the rules by whether their table has data |
| `Masking.CheckStatements` | engine/src/mask/mod.rs:631-677 | one check per table with exactly the columns of its rules, or an identifier that cannot be quoted |
| `Masking.ReadBack` | engine/src/ops.rs:1880-1909 | succeeds exactly if no count read back is above zero, and then reports every column read; otherwise the error names the first column that is left, with its count |
| `Masking.Server.RunMasking` | engine/src/ops.rs:1825-1909 | the rows afterwards are exactly what the statements made of them; success exactly if every statement and count went through and every effective column reads back zero; other databases are untouched |
| `Masking.Server.RunMongoMasking` | engine/src/ops.rs:1918-1971 | the same for a document store |
| `Masking.Server.MaskDestination` | engine/src/ops.rs:1788-1822 | on success every effective column is masked; on every error but "data left behind" the database is gone, and that error comes exactly if the drop failed; a column that was found unmasked is named with its count |
| `Masking.EveryRuleIsObeyed` | engine/src/mask/mod.rs:326-389 | masking the effective rules is masking every rule whose table carries data |
| `Masking.ReadBackMeans` | engine/src/ops.rs:1880-1909 | what a read-back finds: nothing above zero, or the places that are |
| `Syncing.Sync` | engine/src/ops.rs:843-1074 | every path is a beginning of one trace, its recorder calls follow the plan, and a completed run is the whole trace; a sync stops exactly at the first refusal, failure or cancellation in the order of its steps, with that error and what was done before it |
| `Syncing.SyncCompletesExactly` | engine/src/ops.rs:843-1074 | it completes exactly if the engines are the same, masking is planned for a database of its own, nothing it needs fails and nobody cancels between two steps |
| `Syncing.EveryBeginningIsSound` | engine/src/ops.rs:895-1064 | wherever a sync stops: what is masked was restored by it into a database of its own, and nothing is verified or deleted unless the mask went through |
| `Syncing.TraceIsSound` | engine/src/ops.rs:895-1064 | a whole sync is in order, and retention runs only after a passed verification and complete copies |
| `Syncing.DrillNamesExactly` | engine/src/ops.rs:2782-2818 | a name is droppable exactly if it is `dbsync_drill_`, perhaps six hexadecimal digits and an underscore, and eight digits, an underscore and six digits |
| `Syncing.Drill` | engine/src/ops.rs:2458-2574 | on every path at most the drill's own scratch database is dropped, and its name is recognised; it is kept exactly after a failed drill that asks for it; the first failure is the error; the calls follow the plan |
| `Definer.TokensAreTheLine` | engine/src/definer.rs:20-88 | cutting a line into tokens loses and reorders nothing |
| `Definer.SkipDefinerPart` | engine/src/definer.rs:100-130 | the index moves over exactly one quoted or bare identifier, one past the end at an escape that ends the line |
| `Definer.SkipDefinerClause` | engine/src/definer.rs:91-97 | and then over exactly the account and one space |
| `Definer.ContainsKeyword` | engine/src/definer.rs:136-143 | the quick test finds the keyword exactly if it stands somewhere, in any case |
| `Definer.StripDefiners` | engine/src/definer.rs:20-88 | the index loop gives a new text exactly if the line has a clause, and then the line without its clauses, bytes of 128 and more re-encoded |
| `DefinerLaws.LiteralsSurvive` | engine/src/definer.rs:1-19 | every quoted literal is in what is kept, byte for byte, after what was kept before it |
| `DefinerLaws.OutputIsTheStrippedLineExactly` | engine/src/definer.rs:79-79 | the output is the stripped line itself exactly if that is ASCII |
| `DefinerLaws.CharacterBecomesTwo` | engine/src/definer.rs:79-79 | an input that fails it: any character of two bytes in UTF-8 after a clause comes out as four bytes |
| `DefinerLaws.QuotesReadBackExactly` | engine/src/definer.rs:20-88 | a reader of the output finds the same literals exactly if no dropped clause stood between two literals of one quote |
| `DefinerLaws.LiteralsRunTogether` | engine/src/definer.rs:20-88 | inputs that fail it: any two closed literals of one quote around a clause |
| `DefinerAgain.StrippingTwiceExactly` | engine/src/definer.rs:20-88 | filtering the output again changes nothing exactly if the keyword stands at no plain byte of what was kept |
| `DefinerLaws.StrippingTwiceDropsMore` | engine/src/definer.rs:20-88 | an input that fails it: the two halves of a keyword around a clause |
| `DefinerLaws.QuotedIdentReadsBackExactly` | engine/src/db.rs:205-222 | a quoted identifier reads back as itself exactly if no further quote follows it |
| `DefinerLaws.PartIsTheIdentExactly` | engine/src/definer.rs:100-130 | the scanner skips exactly a backtick-quoted identifier unless a backtick follows |
| `DefinerLaws.AccountIsDropped` | engine/src/definer.rs:20-97 | a definer as the server writes it is dropped whole, whatever is in its names |
| `DefinerAccounts.AnyAccountIsDropped` | engine/src/definer.rs:91-130 | with the keyword in any case, an account of bare or quoted names is dropped whole with one space after it: letters, digits, underscores and dollar signs, or any of the three quotes with doubled quotes and escapes inside; with a host or without |
| `DefinerAccounts.ClauseInALine` | engine/src/definer.rs:20-97 | so it is in the middle of a line |
| `DefinerAccounts.CurrentUserIsDropped` | engine/src/definer.rs:126-128 | `DEFINER=CURRENT_USER` and the space after it are dropped |
| `DefinerLaws.StripDefinersStream` | engine/src/definer.rs:148-164 | each line through the filter, a newline after each, and a count of those changed |
| `DefinerLaws.StreamIsTransparentExactly` | engine/src/definer.rs:145-164 | a dump without a clause passes unchanged exactly if its lines end in a bare newline, the last one too |
| `DefinerLaws.CarriageReturnIsLost` | engine/src/definer.rs:148-164 | inputs that fail it: lines that end in carriage return and newline |
| `DefinerAgain.JoiningLinesExactly` | engine/src/definer.rs:148-164 | two lines read as one text give the tokens of each exactly if the first does not end inside a quote |
| `DefinerAgain.LineByLineExactly` | engine/src/definer.rs:148-164 | the same for a whole text and all its lines |
| `DefinerAgain.StreamIsOnePass` | engine/src/definer.rs:148-164 | such a dump is written as one pass over the whole text would write it |
| `DefinerLaws.LiteralsAreReadPerLine` | engine/src/definer.rs:148-164 | an input that fails it: a literal over two lines loses what looks like a clause in it |
| `Digest.CanonDecidesEquivalence` | engine/src/db.rs:716-754 | two values have one canonical form exactly if they are equal up to the order of keys at every depth, arrays in order |
| `Digest.CanonIsIdempotent` | engine/src/db.rs:716-754 | a canonical form is its own, and equivalent to what it was made from |
| `Digest.TableDigest` | engine/src/db.rs:862-900 | the loop computes the fold of the documents' hashes |
| `Digest.SameDocumentsSameDigest` | engine/src/db.rs:862-872 | collections with the same documents, in whatever order and with keys in whatever order, digest equally |
| `Digest.FoldOfSum` | engine/src/db.rs:873-899 | the fold of two lists together is the exclusive or of their folds |
| `Digest.ReplacedDocumentShowsExactly` | engine/src/db.rs:862-872 | replacing a document by another changes the fold exactly if the two hash differently |
| `Digest.EqualDocumentsCancel` | engine/src/db.rs:873-899 | in a bare list equal documents cancel in pairs |
| `Retention.PlanRetention` | engine/src/retention.rs:46-90 | kept followed by deleted is the input sorted newest first; the newest is kept; the bytes reclaimed are the total less what is kept |
| `Retention.Divide` | engine/src/retention.rs:57-80 | the loop keeps exactly the artifacts that no rule of the policy has expired, which come first |
| `Retention.PlanMeans` | engine/src/retention.rs:46-90 | what every plan satisfies, whichever policy and time |
| `Retention.KeptExactly` | engine/src/retention.rs:57-80 | counted from the newest, a candidate is kept exactly if it is the first, or is within the number and no older than the days of the policy, of 24 hours each |
| `Retention.KeepLastLeavesExactly` | engine/src/retention.rs:46-90 | never more than the number stay, and never fewer than one; with a number alone exactly that many, or all; with neither rule, all |
| `Retention.MaxAgeLeavesExactly` | engine/src/retention.rs:46-90 | with an age alone, exactly what is older goes, but for the newest |
| `Retention.ReplanningDeletesNothing` | engine/src/retention.rs:46-90 | planning what was kept again, at the same time, deletes nothing |
| `Retention.LaterKeepsFewer` | engine/src/retention.rs:46-90 | a later time keeps a beginning of what an earlier one keeps |
| `Retention.NewestIsNeverLost` | engine/src/retention.rs:39-45 | over any sequence of additions and cleanups, under any policies, a directory that is not empty never loses its newest and never becomes empty |
| `Selections.ExpandIsIdempotentExactly` | engine/src/plan.rs:119-143 | completing twice is completing once, for every saved list, exactly if no table shadows a later one by the public schema |
| `Selections.ExpandIsIdempotent` | engine/src/plan.rs:119-143 | in particular if no table is named public. and another |
| `Selections.ExpandMeans` | engine/src/plan.rs:109-159 | a table takes the first entry saved under its name, with or without `public.`, and carries data if there is none |
| `Selections.BareShadowBreaks` | engine/src/plan.rs:145-159 | inputs that fail it: a bare name listed before its qualified one |
| `Selections.QualifiedShadowBreaks` | engine/src/plan.rs:145-159 | and a qualified one before the bare one |
| `Selections.DistinctNames` | engine/src/plan.rs:171-183 | the file's lines give one entry per name, in order |
| `Selections.ListedExactly` | engine/src/plan.rs:171-183 | a line lists its first word, whatever stands around it; a comment or a blank line lists nothing |
| `Selections.ConfMeansItsLines` | engine/src/plan.rs:211-223 | one entry per available table: with data if some line names it, schema only if none does |
| `Selections.ConfIsFixedExactly` | engine/src/plan.rs:205-223 | a completed file is a fixed point of completion exactly if no bare name stands before its qualified one |
| `SshStore.CreateKeepsSound` | engine/src/store.rs:1306-1338 | a new record keeps ids and names unique and jump hosts direct |
| `SshStore.UpdateKeepsSound` | engine/src/store.rs:1345-1386 | an update changes one record, not its id or name, and never makes a chain of jumps |
| `SshStore.JumpAcceptedExactly` | engine/src/store.rs:1393-1424 | a jump host is accepted exactly if it is another, existing, direct record and nobody jumps through the record itself |
| `SshStore.JumpRefusedExactly` | engine/src/store.rs:1393-1424 | each refusal exactly for its reason, with the name of the record in the way |
| `SshStore.UnusableExactly` | engine/src/sshconn.rs:164-180 | an endpoint is turned down for the first of: a blank host, a blank user, port 0, a key file without a path |
| `SshStore.CreateExactly` | engine/src/store.rs:1306-1338 | a record is created exactly if its name is not blank, its endpoint and jump host are accepted, and its trimmed name is free; the error is the first of these that fails |
| `SshStore.UpdateExactly` | engine/src/store.rs:1345-1386 | what a patch leaves out stays, and the record it makes is checked before it is written |
| `SshStore.WritesKeepUsable` | engine/src/store.rs:1306-1386 | only records with a trimmed name and an endpoint that could connect are stored |
| `SshAdoption.UniqueName` | engine/src/sshconn.rs:366-374 | terminates with the name itself, or the first numbered one that is free |
| `SshAdoption.SameNameSameAddressExactly` | engine/src/sshconn.rs:201-212 | a name is the user and the address, with the port unless it is 22; two endpoints share one exactly if they differ only in how they authenticate, users having no @ and hosts no colon |
| `SshAdoption.OneRecordEach` | engine/src/sshconn.rs:271-374 | profiles for one user at one address make one record for each way they authenticate, numbered from the second |
| `SshAdoption.OneAddressManyRecords` | engine/src/sshconn.rs:361-374 | an instance: `ops@host`, `ops@host (2)` and `ops@host (3)` |
| `SshAdoption.SomeCandidateIsFree` | engine/src/sshconn.rs:366-374 | by counting: among one more numbered names than records, one is free |
| `SshAdoption.Store.AdoptEndpoint` | engine/src/sshconn.rs:335-359 | the record with this endpoint and jump host, created only if there was none; refused exactly if there is none and the endpoint is unusable or the trimmed form of its unique name is taken, and then nothing changes |
| `SshAdoption.Store.AdoptLegacyConfigs` | engine/src/sshconn.rs:271-324 | each profile is reported with its record, the name of it and whether anything served these settings before, and points at it; nothing else changes; it fails exactly if some endpoint, when its turn comes, is in no record and cannot be given one, with that refusal and with what was done before it; when all are there already, nothing is created |
| `SshAdoption.GrownKeeps` | engine/src/sshconn.rs:326-359 | adoption only adds records, and never two with one endpoint and jump host |
| `SshAdoption.AdoptedProfilesReachTheirServers` | engine/src/sshconn.rs:271-324 | each profile reaches its own endpoint through its own jump endpoint |
| `SshAdoption.AdoptionFailsExactly` | engine/src/sshconn.rs:335-374 | a new endpoint is refused exactly if it is unusable or its name, once trimmed, is taken |
| `SshAdoption.TidyAdoptionFailsExactly` | engine/src/sshconn.rs:271-374 | a whole adoption of settings without stray white space fails exactly if some endpoint among them is unusable, never over a name |
| `SshAdoption.SpacedUserCollides` | engine/src/sshconn.rs:366-374 | an input that fails: a user name with a space before it |
| `Upserts.OneApplies` | engine/src/share.rs:280-314 | a record written under its own name is in the table afterwards |
| `ShareSsh.WriteRecord` | engine/src/share.rs:280-314 | create or update by name, as the table's rules say, or refused with the store's error and nothing written |
| `ShareSsh.ImportRecords` | engine/src/share.rs:269-325 | the first pass writes exactly one record after the other up to the first that is refused, and touches no jump host; rows of other names stay as they are; it is never refused for a coherent bundle |
| `ShareAttach.AttachAll` | engine/src/share.rs:327-348 | the second pass changes exactly the jump hosts the records name, up to the first that is refused, and reports those the bundle does not carry; it stops exactly as the condition below says |
| `ShareAttach.AttachDecides` | engine/src/store.rs:1393-1424 | a jump host of the bundle is refused exactly if it jumps in the store, or some row jumps through the record and has not been given its own before |
| `ShareAttach.ImportSsh` | engine/src/share.rs:264-349 | both passes: nothing removed or renumbered; what succeeds is all there; again changes nothing; a coherent bundle is refused exactly if the store stands in its way, never by an empty one, which mirrors it |
| `ShareAttach.LocalJumpBlocksBundle` | engine/src/share.rs:327-348 | a store that stands in the way |
| `ShareOrder.OrderDecidesNothingExactly` | engine/src/share.rs:264-268 | for a sound store: all orders of a bundle are refused exactly if some jump host jumps here, or a row the bundle gives no jump host jumps through a record it gives one; none is refused exactly if no jump host jumps here and no row jumps through such a record; the order is immaterial exactly if one of these |
| `ShareOrder.CoherentInAnyOrder` | engine/src/share.rs:264-268 | every order of a coherent bundle is coherent, so these are the refusals of the whole import |
| `ShareOrder.OrderDecides` | engine/src/share.rs:264-268 | a store and a coherent bundle where the order decides |
| `Share.Config.ResolveTunnel` | engine/src/share.rs:415-433 | the tunnel of a shared profile on this machine: the record filed under the name it gives, none if nothing is, or the one an inline tunnel is adopted into; nothing is created for one that is there |
| `Share.Config.ImportProfiles` | engine/src/share.rs:409-490 | exactly one profile after the other, up to the first that is refused; rows are kept, and a profile whose tunnel is known is never refused |
| `Share.Config.ImportPlans` | engine/src/share.rs:492-535 | exactly the plans whose profile is here are written, and exactly the others are reported |
| `Share.Config.ImportDestinations` | engine/src/share.rs:537-583 | exactly one destination after the other, up to the first that is refused, by name; one that is there already, or that is tidy and valid, is never refused |
| `Share.Config.Import` | engine/src/share.rs:386-585 | whatever the bundle, exactly its steps are taken, in order, up to the first refusal; nothing is removed or renumbered; success puts everything there; again succeeds and changes nothing; a coherent bundle is refused exactly if a local jump host stands in the way; an empty store exports it again |
| `ShareMeaning.ImportedMeans` | engine/src/share.rs:386-585 | afterwards each record has a row with the fields it gives: a connection its endpoint and jump host, a profile its settings and the tunnel the bundle means, a plan its owner, selections and rules, a destination its kind and retention |
| `ShareMeaning.RestStays` | engine/src/share.rs:386-585 | rows the bundle does not name stay exactly as they were, refused or not; a switch is never touched and a new destination is off; a plan keeps its owner and database |
| `Share.Config.Export` | engine/src/share.rs:202-261 | the bundle of the tables, references by name, and always a coherent one |
| `ShareTrip.ExportIsCoherent` | engine/src/share.rs:202-261 | whatever a store holds, its export carries all it refers to |
| `ShareTrip.ExportLosesNothing` | engine/src/share.rs:202-261 | no jump host, tunnel or plan is left out |
| `Share.ShareWith` | engine/src/share.rs:386-391 | from one machine to a new one: never refused, and the new one exports the same records and references, destinations switched off |
| `Share.PlanArrivesExactly` | engine/src/share.rs:505-517 | a plan arrives as sent exactly if it is new here or was for the same database |
| `Share.OldDatabaseStays` | engine/src/share.rs:505-517 | an input that fails it: a plan of that name for another database |
| `Share.DestinationAgainExactly` | engine/src/share.rs:537-575 | an imported destination can be imported again exactly if its name has no space around it |
| `Share.TrailingSpaceOnlyOnce` | engine/src/store.rs:1150-1187 | an input that fails it: a trailing space |
| `Share.ConnectionAgainExactly` | engine/src/share.rs:280-314 | the same for an SSH connection |

## Findings

Each is a property the comments or the documentation state, an input for which the code does not meet
it, and the condition under which it does.

- Strictly after (engine/src/cron.rs:203): not in the second pass of a repeated hour with a matching
  minute still to come. `CronZones.NextCanBeEarlier`, `CronZones.StrictlyAfterInAnyZone`.
- "Never" only for dates that cannot come (engine/src/cron.rs:203): not when the window has no
  occurrence and the 146,097 days from its start have a date. So it is for 29 February around a century
  year without leap day, `CronBudget.LeapDayAround2100`, and for a day of the month on a weekday,
  `CronBudget.NeverBeforeASunday`. `CronBudget.NeverExactly`.
- A field means its progressions (engine/src/cron.rs:539): not when the step makes the addition wrap.
  `CronParse.WrappedEntry`, `CronParse.WalkedIsProgressionExactly`, `CronParse.FieldMeansItsProgressions`.
- One occurrence is started once (engine/src/scheduler.rs:135, engine/src/scheduler.rs:219): not when
  the schedule is released between a tick's read and its claim, nor when a mark is not stored.
  `Scheduler.StaleClaimFiresTwice`, `SchedulerOrder.OrderFromTheStartExactly`,
  `Scheduler.LostMarkFiresTwice`, `SchedulerLaws.LostMarkFiresAgainExactly`.
- At most one make-up run (engine/src/schedule.rs:239): not when a missed firing is still ahead on a wall
  clock that was put back. `MakeUps.TwoMakeUpRuns`, `MakeUps.OneMakeUpExactly`,
  `MakeUps.OneMakeUpInAnyZoneExactly`.
- A mask belongs to the backup being restored (engine/src/ops.rs:1239): not when another backup comes
  between, or the restore is from a file. `PipelineLaws.ValidatedButUnpaired`,
  `PipelineLaws.PairedExactly`. The same holds of a verify step.
- What validation accepts can run to its end (engine/src/pipeline.rs:302): not a restore into an existing
  database of a production server, `PipelineEnds.IntoProductionNeverCompletes`, nor backups of two
  databases with one saved plan, `PipelineEnds.OnePlanTwiceNeverStarts`. `PipelineEnds.CompletesExactly`.
- Lines undo the signature (engine/src/pipeline.rs:274): not for names with a newline or a trailing
  carriage return. `PipelineEnds.ArmedWithTheWrongNames`, `Arming.LinesInvertJoinExactly`,
  `PipelineEnds.UnattendedCompletesExactly`.
- The filter keeps what is not a clause byte for byte (engine/src/definer.rs:79): not characters beyond
  ASCII in a line that loses a clause. `DefinerLaws.CharacterBecomesTwo`,
  `DefinerLaws.OutputIsTheStrippedLineExactly`.
- The filter keeps literals apart (engine/src/definer.rs:20): not two of one quote around a clause.
  `DefinerLaws.LiteralsRunTogether`, `DefinerLaws.QuotesReadBackExactly`.
- Filtering twice is filtering once (engine/src/definer.rs:20): not when a dropped clause joins the
  halves of another. `DefinerLaws.StrippingTwiceDropsMore`, `DefinerAgain.StrippingTwiceExactly`.
- A literal is never touched (engine/src/definer.rs:148): not one that spans lines.
  `DefinerLaws.LiteralsAreReadPerLine`, `DefinerAgain.LineByLineExactly`.
- A dump without a clause passes unchanged (engine/src/definer.rs:145): not with other line endings.
  `DefinerLaws.CarriageReturnIsLost`, `DefinerLaws.StreamIsTransparentExactly`.
- Completion is idempotent (engine/src/plan.rs:119): not when two available names differ by `public.`.
  `Selections.BareShadowBreaks`, `Selections.ExpandIsIdempotentExactly`.
- The order of a bundle does not matter (engine/src/share.rs:264): it does where a row that is given a
  jump host jumps through another that is, and nothing refuses the bundle in every order.
  `ShareOrder.OrderDecides`, `ShareOrder.OrderDecidesNothingExactly`.
- A repeated import is harmless (engine/src/share.rs:386): a record whose name has white space around
  it is refused the second time. `Share.TrailingSpaceOnlyOnce`, `Share.DestinationAgainExactly`.
- An update brings a plan over (engine/src/share.rs:505): not its database. `Share.OldDatabaseStays`,
  `Share.PlanArrivesExactly`.
- Two adopted connections never collide (engine/src/sshconn.rs:366): names are compared before they are
  trimmed. `SshAdoption.SpacedUserCollides`, `SshAdoption.AdoptionFailsExactly`,
  `SshAdoption.TidyAdoptionFailsExactly`.

## Left out

- CronParse.Walk: the wrap-around is that of a release build; a debug build panics there.
- Cron.Scan: dates have no bounds, where the date library stops some 262,000 years out.
- Scheduler.AtMostOneRun: a run that panics never releases its schedule and stays reserved in the model
  too; two processes on one store are not modelled.
- Share.Config.Import: timestamps, revisions, audit entries and the lists of the report; a failure of
  the database file itself.
- Share.Config.Export: rows are in the order of the model's tables, where the store lists them by name.
- ShareSsh.WriteRecord: an update of the name of a connection, which an import never makes.
- Retention.PlanRetention: sizes are unbounded, where the sum is of 64-bit numbers.
- Definer.StripDefiners: a byte is the character of that code, and a line is never invalid UTF-8.
- Digest.TableDigest: the hash is any function to 32 bytes; the count beside the fold and the
  hexadecimal text of it are not modelled.
- Masking.Server.RunMasking: a statement does to the rows whatever it does; transforms, salts, SQL text
  and the order of tables are not modelled.
- Syncing.Drill: the checks of a restored drill against its manifest are one answer of the outside.
- PipelineRun.RunPipeline: compression, encryption and engine options pass through unseen; off-site
  upload and its retention are one answer.
- Serialisation of stored rows and bundles, and reading a bundle of another version.
- Key store, age and gzip layers, SSH sessions, S3 requests, drivers, child processes, webhooks.
- Descriptions, labels, progress, notifications, settings, the desktop application and the command line.
- Library size statistics.
