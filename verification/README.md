# A verified model of the shared-scheduler batch core

This project models, in Dafny, the sequential core of a Java library that manages
scheduled batches. A batch is either a TIMER batch, which fires at a fixed interval
("5 seconds", "2h", "1 minute"), optionally aligned on the next interval boundary, or a
CRON batch, which fires at the occurrences of a cron expression. The library builds
batches from configurations, keeps them in a registry by name and by class, and
drives each batch through a small life cycle: SET, STARTED, RUNNING while its task
executes, and STOPPED, after which only a reset brings it back.

The model is functional. Every batch, configuration and registry is an immutable
value, and every operation maps a value to the next one, with
`Result` (success or a Java exception kind) or `Effect` (a new state plus an outcome,
for `stop`, which changes the batch even when it throws). The clock is an explicit
`now` parameter counting milliseconds. The batch's task body is a parameter telling whether it
completed (and in how many nanoseconds) or threw. The cron library is a pair of
functions, and class loading is a predicate.

Modules follow the source:

- `StringUtils`, `TimeUnits`, `TimeIntervals`, `DateUtils` and `DurationUtils` model the
  utilities. They cover interval parsing, unit aliases, boundary alignment and the
  average of durations.
- `DurationHistory` models the evicting queue of recent durations.
- `BatchTypes` and `BatchConfigurations` model the batch types and the configuration
  builder.
- `TimerBatch` and `CronBatch` model the two scheduling strategies.
- `AbstractBatch` models the life cycle, and `BatchLifecycle` holds its invariant and
  the cross-operation properties.
- `BatchFactory` and `BatchManager` model creation and the registry.
- `StringOrder` models the key order of the registry's sorted maps.
- `Outcomes` and `JavaArith` are shared helpers. They hold the result types, Java's
  truncating division and `int` range, and the division facts the proofs use.

Where the source's comments or documentation and its code differ, the model follows
the code:

- Aligning on HOURS zeroes only the minutes. Seconds and milliseconds of the base time
  are kept (`DateUtils.java:56-60`), and `DateUtils.AlignmentClearsOnlyNextSmaller`
  states exactly this.
- A cron batch whose task throws is not re-armed, because `afterRun` is skipped
  (`AbstractBatch.java:201-212`). The batch then fires no more until it is restarted;
  see `BatchLifecycle.CronRearmsAfterAutomaticFire`.
- An unparsable cron expression fails with an illegal-argument error, as the cron
  library throws. It is not a configuration error.
- A zero interval fails when a timer batch starts. It fails with an arithmetic error
  when modulated, since the remainder by zero at `DateUtils.java:48` comes first, and
  otherwise with an illegal-argument error from the executor, which refuses a
  non-positive period.

## Model

| member | source | states |
|---|---|---|
| StringUtils.DefaultIfEmpty | src/main/java/com/ranushan/util/StringUtils.java:9-19 | the result is the string when it is non-empty and the default otherwise; it is non-empty iff either input is |
| StringUtils.EmptyExactly | src/main/java/com/ranushan/util/StringUtils.java:9-15 | a string is empty exactly when it is null or "", and not-empty is its negation |
| StringUtils.BlankIsNotEmpty | src/main/java/com/ranushan/util/StringUtils.java:9-11 | whitespace-only strings are not empty (no trimming) |
| StringUtils.DefaultIfEmptyIdempotent | src/main/java/com/ranushan/util/StringUtils.java:17-19 | defaulting twice with the same default equals defaulting once |
| TimeUnits.FindByIdentifier | src/main/java/com/ranushan/util/TimeUnit.java:40-51 | a unit is found iff some unit lists the identifier ignoring case, and then it is the only such unit; otherwise an illegal argument |
| TimeUnits.AliasesDisjoint | src/main/java/com/ranushan/util/TimeUnit.java:11-24 | no identifier names two units, so taking the first match is unambiguous |
| TimeUnits.FoldsToAlias | src/main/java/com/ranushan/util/TimeUnit.java:47-51 | an identifier that matches an alias ignoring case lower-cases to that alias |
| TimeUnits.EmptyIdentifiesNothing | src/main/java/com/ranushan/util/TimeUnit.java:47-49 | a null or empty identifier names no unit and lookup fails |
| TimeUnits.Identifies | src/main/java/com/ranushan/util/TimeUnit.java:40-51 | any case variant of a listed alias finds that alias's unit |
| TimeUnits.FindsOwnAlias | src/main/java/com/ranushan/util/TimeUnit.java:11-24 | each listed alias finds its own unit |
| TimeUnits.CaseInsensitiveExamples | src/main/java/com/ranushan/util/TimeUnit.java:11-24 | "H", "Hours" and "hour(s)" find HOURS; "SECONDS" finds SECONDS |
| TimeUnits.UnlistedAliasRejected | src/main/java/com/ranushan/util/TimeUnit.java:16-19 | "min" is not an alias of minutes and is rejected |
| TimeUnits.ToMillis | src/main/java/com/ranushan/util/TimeUnit.java:59-62 | the millisecond count is a whole number of seconds equal to the amount times the unit's seconds |
| TimeUnits.Convert | src/main/java/com/ranushan/util/TimeUnit.java:64-66 | conversion truncates: the result is the largest whole count of target units within the amount, exact from a coarser unit |
| TimeUnits.ConvertRoundTrip | src/main/java/com/ranushan/util/TimeUnit.java:64-66 | converting a coarse amount to a finer unit and back returns it; 90 seconds are 1 minute |
| TimeIntervals.RunStart | src/main/java/com/ranushan/util/TimeInterval.java:15-16 | the scan stops at the first character of the class at or after the start |
| TimeIntervals.RunEnd | src/main/java/com/ranushan/util/TimeInterval.java:15-16 | the scan stops at the first character outside the class, all before it inside |
| TimeIntervals.FindRun | src/main/java/com/ranushan/util/TimeInterval.java:41-42 | there is no run iff no character is of the class; otherwise the result is the first maximal run |
| TimeIntervals.FirstRunUnique | src/main/java/com/ranushan/util/TimeInterval.java:41-42 | the first maximal run of a class is unique |
| TimeIntervals.ExtractFirstDigitGroup | src/main/java/com/ranushan/util/TimeInterval.java:40-46 | no digit, or a first digit run above the int range, is an illegal argument; otherwise the decimal value of the first digit run |
| TimeIntervals.ExtractFirstLetterGroup | src/main/java/com/ranushan/util/TimeInterval.java:48-54 | "" iff the input has no ASCII letter; otherwise the first maximal letter run |
| TimeIntervals.Of | src/main/java/com/ranushan/util/TimeInterval.java:30-38 | success iff the digits parse and the letters are absent or identify a unit; the duration is the first number, the unit the default or the identified one |
| TimeIntervals.IntervalMillis | src/main/java/com/ranushan/util/TimeInterval.java:56-58 | the milliseconds are an exact multiple of the unit whose quotient is the duration; zero iff the duration is zero |
| TimeIntervals.AliasLetterPrefix | src/main/java/com/ranushan/util/TimeUnit.java:13-23 | every alias starts with a letter run that is itself an alias of the same unit |
| TimeIntervals.AliasHasNoDigit | src/main/java/com/ranushan/util/TimeUnit.java:13-23 | aliases contain no digits |
| TimeIntervals.OfDigitsThenAlias | src/main/java/com/ranushan/util/TimeInterval.java:30-38 | digits followed by any alias parse to that number of that unit, worth number times unit milliseconds |
| TimeIntervals.OfDigitsOnly | src/main/java/com/ranushan/util/TimeInterval.java:34-35 | a bare number is a number of minutes |
| TimeIntervals.NoDigitRejected | src/main/java/com/ranushan/util/TimeInterval.java:45 | input without digits is an illegal argument |
| TimeIntervals.OfByRuns | src/main/java/com/ranushan/util/TimeInterval.java:30-54 | the interval is determined by the first digit run and the first letter run, wherever they are |
| TimeIntervals.OfIgnoresLaterRuns | src/main/java/com/ranushan/util/TimeInterval.java:30-38 | "1h30m" is 1 hour: later runs are ignored |
| TimeIntervals.OfLettersBeforeDigits | src/main/java/com/ranushan/util/TimeInterval.java:30-38 | "m5" is 5 minutes: letters may precede digits |
| TimeIntervals.OfParenthesisedAlias | src/main/java/com/ranushan/util/TimeInterval.java:48-54 | "5 second(s)" is 5 seconds: the letter run stops at the parenthesis |
| TimeIntervals.OfZero | src/main/java/com/ranushan/util/TimeInterval.java:30-38 | "0s" parses to a zero interval (no positivity check) |
| TimeIntervals.FiveSecondsMillis | src/main/java/com/ranushan/util/TimeInterval.java:56-58 | "5s" is 5000 ms |
| TimeIntervals.TwoMinutesMillis | src/main/java/com/ranushan/util/TimeInterval.java:56-58 | "2m" is 120000 ms |
| TimeIntervals.ThreeHoursMillis | src/main/java/com/ranushan/util/TimeInterval.java:56-58 | "3h" is 10800000 ms |
| DateUtils.NextExactDateEveryInterval | src/main/java/com/ranushan/util/DateUtils.java:37-62 | a null base is a null pointer, a zero interval an arithmetic error, and every other input aligns |
| DateUtils.Advance | src/main/java/com/ranushan/util/DateUtils.java:47-54 | the step is between 1 and the interval and brings the field to a multiple of the interval |
| DateUtils.AlignmentBounds | src/main/java/com/ranushan/util/DateUtils.java:43-62 | the aligned date is strictly after the base and at most one interval later |
| DateUtils.AlignmentClearsOnlyNextSmaller | src/main/java/com/ranushan/util/DateUtils.java:56-60 | only the next-smaller field is zeroed; finer fields keep the base's values |
| DateUtils.AlignmentOnBoundary | src/main/java/com/ranushan/util/DateUtils.java:47-54 | the unit's field advances by the step modulo its cycle and lands on a multiple of the interval when the interval divides the cycle |
| DateUtils.FixedRateStaysAligned | src/main/java/com/ranushan/util/DateUtils.java:47-54 | fires every interval after an aligned first fire stay aligned |
| DateUtils.FourHoursFromThreeTwentyFive | src/main/java/com/ranushan/util/DateUtils.java:43-62 | 03:25 aligned on 4 hours is 04:00 |
| DateUtils.FormatDate | src/main/java/com/ranushan/util/DateUtils.java:21-31 | the intended formatter: a null date renders as "null" and a present date as the zone-aware rendering passed in; it never throws |
| DateUtils.FormatDateAsWritten | src/main/java/com/ranushan/util/DateUtils.java:14-31 | as written, the zoneless pattern throws UnsupportedTemporalType for every present date; only null renders, as "null" |
| DateUtils.FormatDateAsWrittenDiverges | src/main/java/com/ranushan/util/DateUtils.java:14-31 | the written and intended formatters agree on null and on no present date |
| DurationUtils.ComputeAverage | src/main/java/com/ranushan/util/DurationUtils.java:11-24 | the loop computes the reference average: the sum of present durations divided, toward zero, by their count; 0 for null, empty or all-null input |
| DurationUtils.NullsIgnored | src/main/java/com/ranushan/util/DurationUtils.java:17-22 | dropping the null entries changes neither the sum, the count nor the average |
| DurationUtils.AllNullsAverageZero | src/main/java/com/ranushan/util/DurationUtils.java:23 | a collection of nulls counts nothing and averages to zero |
| DurationUtils.AverageWithinRange | src/main/java/com/ranushan/util/DurationUtils.java:15-23 | the average lies between the smallest and the largest present duration |
| DurationUtils.AverageExample | src/main/java/com/ranushan/util/DurationUtils.java:11-24 | 20, 30 and 40 average to 30 |
| DurationHistory.Offer | src/main/java/com/ranushan/runner/AbstractBatch.java:217-222 | the queue stays within capacity, ends with the new element after the newest capacity-1 old ones, and a zero-capacity queue stays empty |
| DurationHistory.OfferAllKeepsNewest | src/main/java/com/ranushan/runner/AbstractBatch.java:51-54 | after any sequence of offers the queue holds exactly the newest capacity elements in arrival order |
| DurationHistory.EvictionExample | src/main/java/com/ranushan/runner/AbstractBatch.java:238-240 | a queue of three fed 10, 20, 30, 40 keeps 20, 30, 40 and averages 30 |
| BatchTypes.TimerDefaultIsOneMinute | src/main/java/com/ranushan/domain/BatchType.java:25 | the timer default "1 minute" parses to one minute, 60000 ms |
| BatchTypes.CronDefaultIsNotAnInterval | src/main/java/com/ranushan/domain/BatchType.java:31 | the cron default "* * * * *" is not a time interval |
| BatchConfigurations.Build | src/main/java/com/ranushan/configuration/BatchConfiguration.java:45-61 | a null type fails first, then an empty class name; a built configuration is complete, keeps the given fields and defaults name to class and interval to the type's default |
| BatchConfigurations.BuildIdempotent | src/main/java/com/ranushan/configuration/BatchConfiguration.java:48-61 | rebuilding a built configuration yields it again |
| BatchConfigurations.BuildKeepsComplete | src/main/java/com/ranushan/configuration/BatchConfiguration.java:48-61 | a complete configuration is a fixed point of building |
| TimerBatch.InitialDelay | src/main/java/com/ranushan/runner/timer/TimerBatch.java:64-75 | zero without modulation; with it, a zero interval fails and otherwise the delay is positive and at most one interval (with the intended date formatter, whatever the logging level) |
| TimerBatch.InitialDelayAsWritten | src/main/java/com/ranushan/runner/timer/TimerBatch.java:64-75 | with INFO logging off it is the intended delay; with it on, every modulated start fails (a positive interval with UnsupportedTemporalType from the log's date formatting), and an unmodulated one still returns zero |
| TimerBatch.InfoLoggingBreaksModulatedStart | src/main/java/com/ranushan/runner/timer/TimerBatch.java:64-75 | a modulated 5-second timer at midnight is intended to fire first after 5000 ms, and as written with INFO logging on its start throws |
| TimerBatch.OnStart | src/main/java/com/ranushan/runner/timer/TimerBatch.java:55-62 | arming succeeds iff the interval is positive; the period is the interval in ms and the first delay the initial delay |
| TimerBatch.OnStop | src/main/java/com/ranushan/runner/timer/TimerBatch.java:82-84 | no schedule remains after stopping |
| TimerBatch.AfterRun | src/main/java/com/ranushan/runner/timer/TimerBatch.java:87-88 | a run leaves the recurring schedule as it was |
| CronBatch.ParseCron | src/main/java/com/ranushan/runner/cron/CronBatch.java:68-72 | a malformed expression is an illegal argument; a valid one gives the normalised expression |
| CronBatch.ScheduleNextExecution | src/main/java/com/ranushan/runner/cron/CronBatch.java:82-102 | a fire is pending iff this is the first scheduling or the batch is started without a stop request, and a next occurrence exists; it is at now plus the delay |
| CronBatch.ScheduleNextExecutionAsWritten | src/main/java/com/ranushan/runner/cron/CronBatch.java:82-102 | as written, the armed state is the intended one, and the call throws iff INFO logging is on and a fire was armed |
| CronBatch.InfoLoggingBreaksCronStart | src/main/java/com/ranushan/runner/cron/CronBatch.java:82-112 | as written with INFO logging on, starting an expression with a next occurrence throws after the fire is armed and its date recorded |
| CronBatch.OnStart | src/main/java/com/ranushan/runner/cron/CronBatch.java:107-112 | starting arms a fire iff the expression has a next occurrence, and returns normally (with the intended date formatter, whatever the logging level) |
| CronBatch.OnStop | src/main/java/com/ranushan/runner/cron/CronBatch.java:114-118 | stopping clears the pending date |
| CronBatch.AfterRun | src/main/java/com/ranushan/runner/cron/CronBatch.java:120-123 | after a run, a batch not started or with a stop request arms nothing |
| CronBatch.NextExecutionDate | src/main/java/com/ranushan/runner/cron/CronBatch.java:140-142 | the optional next date is empty exactly when none is pending |
| AbstractBatch.SetState | src/main/java/com/ranushan/runner/AbstractBatch.java:85-88 | the state changes and the old one becomes the previous state |
| AbstractBatch.MaxHistorySize | src/main/java/com/ranushan/runner/AbstractBatch.java:299-305 | the history size is zero without statistics and the configured size clamped at zero with them |
| AbstractBatch.Fresh | src/main/java/com/ranushan/runner/AbstractBatch.java:65-69 | a new batch is SET with no previous state, no stop request and an empty history of the computed size |
| AbstractBatch.NewTimerBatch | src/main/java/com/ranushan/runner/timer/TimerBatch.java:37-50 | a non-timer configuration is an illegal argument; otherwise success iff the interval parses, giving a fresh batch holding it |
| AbstractBatch.NewCronBatch | src/main/java/com/ranushan/runner/cron/CronBatch.java:50-66 | a non-cron configuration is an illegal argument; otherwise success iff the expression parses, giving a fresh batch with nothing pending |
| AbstractBatch.Start | src/main/java/com/ranushan/runner/AbstractBatch.java:138-155 | STARTED and STOPPED batches and started runs are refused with their messages; a failing hook changes nothing; success arms the strategy, sets STARTED and records the start date, nothing else changing |
| AbstractBatch.Stop | src/main/java/com/ranushan/runner/AbstractBatch.java:162-177 | the stop request is always recorded; a STOPPED batch fails with nothing else changed; otherwise it is disarmed, STOPPED and without start date |
| AbstractBatch.BeginRun | src/main/java/com/ranushan/runner/AbstractBatch.java:198-199 | the batch is RUNNING with the run date, and counts as started iff it was STARTED |
| AbstractBatch.UpdateStatistics | src/main/java/com/ranushan/runner/AbstractBatch.java:217-222 | the last duration is always recorded and enters the history only with statistics enabled |
| AbstractBatch.Execute | src/main/java/com/ranushan/runner/AbstractBatch.java:201-210 | a throwing task changes nothing; state and previous state are untouched either way |
| AbstractBatch.Run | src/main/java/com/ranushan/runner/AbstractBatch.java:189-215 | an automatic fire after a stop request and one during a run are no-ops; a manual run during a run fails; every other run succeeds and records the run date; the state is restored and configuration, start date and stop request kept |
| AbstractBatch.FormatDuration | src/main/java/com/ranushan/runner/AbstractBatch.java:255-257 | a null duration renders as "null" |
| AbstractBatch.FormatAverageRunDuration | src/main/java/com/ranushan/runner/AbstractBatch.java:230-240 | without statistics the text is "not enabled"; with them it renders the history's average |
| BatchLifecycle.NewTimerBatchWf | src/main/java/com/ranushan/runner/timer/TimerBatch.java:37-50 | a built timer batch satisfies the life-cycle invariant |
| BatchLifecycle.NewCronBatchWf | src/main/java/com/ranushan/runner/cron/CronBatch.java:50-66 | a built cron batch satisfies the invariant and has nothing pending |
| BatchLifecycle.StartPreservesWf | src/main/java/com/ranushan/runner/AbstractBatch.java:138-155 | start keeps the invariant and succeeds from rest iff the batch is SET and, for a timer, its interval is positive |
| BatchLifecycle.StopPreservesWf | src/main/java/com/ranushan/runner/AbstractBatch.java:162-177 | stop keeps the invariant and fails iff the batch is already STOPPED |
| BatchLifecycle.RunPreservesWf | src/main/java/com/ranushan/runner/AbstractBatch.java:189-215 | any run of a batch at rest succeeds and keeps the invariant |
| BatchLifecycle.StartTwiceFails | src/main/java/com/ranushan/runner/AbstractBatch.java:139-141 | a second start fails with "Batch already started" |
| BatchLifecycle.StopThenStartFails | src/main/java/com/ranushan/runner/AbstractBatch.java:142-143 | a stopped batch cannot restart without a reset |
| BatchLifecycle.StopTwiceFails | src/main/java/com/ranushan/runner/AbstractBatch.java:163-166 | a second stop fails and changes nothing |
| BatchLifecycle.StopBlocksAutomaticFires | src/main/java/com/ranushan/runner/AbstractBatch.java:189-190 | after a stop, automatic fires are no-ops while manual runs still execute |
| BatchLifecycle.RunRestoresState | src/main/java/com/ranushan/runner/AbstractBatch.java:197-212 | while running, the batch counts as started iff it was; afterwards its state is back and RUNNING is the previous state |
| BatchLifecycle.OverlappingRunRefused | src/main/java/com/ranushan/runner/AbstractBatch.java:191-195 | during a run a manual run fails and an automatic one is skipped |
| BatchLifecycle.RunRecordsStatistics | src/main/java/com/ranushan/runner/AbstractBatch.java:201-222 | a completed run records its duration and offers it to the history only with statistics; a throwing task records nothing |
| BatchLifecycle.CronRearmsAfterAutomaticFire | src/main/java/com/ranushan/runner/cron/CronBatch.java:82-102 | an automatic fire of a started cron batch re-arms iff the task completed and a next occurrence exists, at now plus the delay |
| BatchLifecycle.CronManualRunWhenIdleArmsNothing | src/main/java/com/ranushan/runner/cron/CronBatch.java:84 | a manual run of a cron batch that is not started arms nothing |
| BatchLifecycle.TimerRunKeepsSchedule | src/main/java/com/ranushan/runner/timer/TimerBatch.java:87-88 | runs never change a timer batch's strategy |
| BatchFactory.Instantiate | src/main/java/com/ranushan/domain/BatchType.java:25-31 | creation succeeds iff the interval suits the type and the class loads; a bad interval is reported before a bad class |
| BatchFactory.Create | src/main/java/com/ranushan/factory/BatchFactory.java:31-36 | a null configuration or holder is a null pointer with its message; a created batch carries the configuration, matches its type, is SET and well formed |
| BatchFactory.CreatedWf | src/main/java/com/ranushan/factory/BatchFactory.java:34-35 | whichever variant is built, it satisfies the life-cycle invariant |
| BatchFactory.CreateIsFresh | src/main/java/com/ranushan/runner/AbstractBatch.java:65-69 | a created batch has no history, no start date and no previous state |
| BatchFactory.DefaultTimerCreates | src/main/java/com/ranushan/domain/BatchType.java:25 | a timer with the default interval and a loadable class is created with a one-unit interval |
| BatchManager.Empty | src/main/java/com/ranushan/BatchManager.java:30-33 | a new manager registers nothing |
| BatchManager.EmptyRegistry | src/main/java/com/ranushan/BatchManager.java:30-31 | the empty registry is well formed |
| BatchManager.InstantiateBatchQuietly | src/main/java/com/ranushan/BatchManager.java:96-113 | a registered class is skipped, as is a configuration that cannot be created; otherwise the created batch |
| BatchManager.AddBatch | src/main/java/com/ranushan/BatchManager.java:115-123 | the batch is filed under its name and its configuration under its class, all other entries unchanged |
| BatchManager.RegisterOne | src/main/java/com/ranushan/BatchManager.java:81-86 | one configuration is added iff its class is new and it can be created |
| BatchManager.Register | src/main/java/com/ranushan/BatchManager.java:79-86 | registration never replaces a registered class and only adds classes of the scanned configurations |
| BatchManager.AddBatchKeepsRegistry | src/main/java/com/ranushan/BatchManager.java:115-123 | adding a created batch of a new class keeps the registry well formed |
| BatchManager.RegisterOneKeepsRegistry | src/main/java/com/ranushan/BatchManager.java:96-123 | one registration step keeps the registry well formed |
| BatchManager.RegisterKeepsRegistry | src/main/java/com/ranushan/BatchManager.java:81-86 | registering any sequence of configurations keeps the registry well formed |
| BatchManager.RegisterNewClass | src/main/java/com/ranushan/BatchManager.java:96-123 | a creatable configuration of a new class is registered under its name as its created batch |
| BatchManager.FindBatchByName | src/main/java/com/ranushan/BatchManager.java:125-133 | null or empty names and unknown names are illegal arguments with their messages; otherwise the batch filed under the name |
| BatchManager.IsBatchRunning | src/main/java/com/ranushan/BatchManager.java:174-176 | the named batch's RUNNING state, or the lookup error |
| BatchManager.IsBatchStarted | src/main/java/com/ranushan/BatchManager.java:178-180 | whether the named batch counts as started, or the lookup error |
| BatchManager.Replace | src/main/java/com/ranushan/BatchManager.java:158-168 | delegating to one batch changes only that batch's entry |
| BatchManager.RemoveBatch | src/main/java/com/ranushan/BatchManager.java:135-141 | the lookup error, or a started or running batch is refused; a found batch at rest is always removed, only its name disappearing while its class stays registered |
| BatchManager.ResetBatch | src/main/java/com/ranushan/BatchManager.java:143-156 | the lookup error, or a started or running batch is refused; a batch at rest is reset iff its class has a registered configuration the factory can build, and otherwise the factory's error (a null configuration included) is returned; a reset re-creates the batch and adds it |
| BatchManager.StartBatch | src/main/java/com/ranushan/BatchManager.java:158-160 | the lookup error, the start error, or the registry with that batch started |
| BatchManager.StopBatch | src/main/java/com/ranushan/BatchManager.java:166-168 | the stop outcome, with the stop request recorded on the batch even when stopping fails |
| BatchManager.RunNow | src/main/java/com/ranushan/BatchManager.java:162-164 | a manual run of the named batch, or its error |
| BatchManager.UpdateInOrder | src/main/java/com/ranushan/BatchManager.java:186-190 | entries are updated in key order until the first failing attempt, which leaves itself and all later entries untouched |
| BatchManager.StartAllBatches | src/main/java/com/ranushan/BatchManager.java:186-194 | all batches start in name order; on the first failure, exactly the earlier names are started and the rest unchanged |
| BatchManager.PartitionAtLeast | src/main/java/com/ranushan/BatchManager.java:30 | at the first remaining key, the keys before it are exactly those already visited |
| BatchManager.ReplaceKeepsRegistry | src/main/java/com/ranushan/BatchManager.java:158-168 | replacing a batch by a well formed one of the same configuration keeps the registry well formed |
| BatchManager.StartKeepsRegistry | src/main/java/com/ranushan/BatchManager.java:158-160 | starting a batch keeps the registry well formed |
| BatchManager.StopKeepsRegistry | src/main/java/com/ranushan/BatchManager.java:166-168 | stopping a batch keeps the registry well formed, even when it fails |
| BatchManager.RunKeepsRegistry | src/main/java/com/ranushan/BatchManager.java:162-164 | a manual run keeps the registry well formed |
| BatchManager.RemoveAndResetKeepRegistry | src/main/java/com/ranushan/BatchManager.java:135-156 | removal and reset keep the registry well formed |
| BatchManager.RunNowSucceeds | src/main/java/com/ranushan/BatchManager.java:162-164 | in a well formed registry a manual run of a managed batch always happens and records the run date |
| BatchManager.ResetAfterStop | src/main/java/com/ranushan/BatchManager.java:143-168 | stop then reset yields a SET batch without a stop request, which then starts iff it is not a timer with a zero interval |
| BatchManager.StartedBatchIsPinned | src/main/java/com/ranushan/BatchManager.java:135-146 | a started batch can be neither removed nor reset |
| BatchManager.RemovedStaysRemoved | src/main/java/com/ranushan/BatchManager.java:96-141 | a managed batch at rest is removed; after that its name is unknown, and registering the same configuration again adds nothing |
| BatchManager.IdleBatchResets | src/main/java/com/ranushan/BatchManager.java:143-156 | a managed batch at rest is always reset, to a SET batch with the same configuration, no stop request, no run date and an empty history |
| StringOrder.Transitive | src/main/java/com/ranushan/BatchManager.java:30 | the key order of the sorted maps is transitive |
| StringOrder.Total | src/main/java/com/ranushan/BatchManager.java:30 | any two distinct keys are ordered |
| StringOrder.LeastExists | src/main/java/com/ranushan/BatchManager.java:30 | every non-empty set of keys has a first key |
| StringOrder.OrderExamples | src/main/java/com/ranushan/BatchManager.java:30 | a prefix sorts first and capitals sort before lower case |

## Left out

- Concurrency is not modelled: the two locks, the double check in `start` and `stop`, and the executor threads. Each public operation is one atomic step, and the only interleaving modelled is an automatic fire arriving while a run is in progress, which `Run` receives as a RUNNING batch.
- The executors are not modelled. A timer's recurring schedule is recorded as a value (first delay, period), and a cron batch's pending fire as its date. The queue of pending one-shot fires is not modelled, so an extra fire armed by a manual run of a started cron batch is not tracked.
- The batch's task body and the reflective lookup of the annotated class are parameters. `TaskOutcome` says whether the task completed and how long it took, and `Env.loadable` says whether a class can be loaded and instantiated.
- The cron library is represented by `CronLibrary`, a parser and a time-to-next-occurrence function. The human-readable cron description is left out.
- The clock is the `now` parameter. A timer's start reads the clock twice and a cron schedule reads it twice; each pair is taken as one instant. Time zones, daylight-saving transitions and calendar arithmetic beyond hours of the day are left out: instants are milliseconds on a uniform day.
- Formatting of durations (`Duration.toString`) and the intended rendering of present dates are parameters; only the `"null"` and `"not enabled"` cases are modelled. As written, `formatDate` throws for every present date; see "## Findings".
- The JSON status strings, `toString` and log messages are left out.
- TimerBatch.InitialDelay and CronBatch.OnStart follow the intended date formatter, so their results do not depend on the logging level. As written, with INFO logging on, a modulated timer start and every cron start that arms a fire throw from `formatDate` (see "## Findings"). The batch life cycle (`AbstractBatch.Start`, `AbstractBatch.Run`) and the manager use the intended behaviour; the as-written failure is modelled only at the strategy level, by `TimerBatch.InitialDelayAsWritten` and `CronBatch.ScheduleNextExecutionAsWritten`.
- Only the global history size is modelled from the configuration holder, as `Holder`; the holder's per-class configuration lookup and the package scan are not modelled. `Register` takes the scanned configurations directly, after precedence has been resolved.
- `getClonedDate` is the identity, because dates are immutable values here.
- The ERROR state exists but is unreachable: no operation enters it.
- `getBatches` and `getBatchStatusJson` are not modelled separately. The name order of `getBatches` is what `StartAllBatches` follows.
- Case-insensitive matching folds ASCII letters only. Java's `equalsIgnoreCase` also matches a few non-ASCII letters against the ASCII aliases, such as U+017F (long s) against `s`; those matches are not modelled.
- `StringOrder.Less` compares characters as Dafny characters. Java compares UTF-16 code units, which differs only for characters outside the Basic Multilingual Plane.
- TimeUnits.ToMillis: the saturation of `TimeUnit.toMillis` at the long range is not modelled; the requires keeps the product within range.
- TimeUnits.Convert: the saturation of `TimeUnit.convert` at the long range is not modelled, and the contract covers only non-negative amounts.
- Durations are whole nanoseconds held in unbounded integers. Overflow of `Duration.plus` beyond the long range of seconds is not modelled.

## Findings

| source | as written | input that shows it | evidently intended | confidence | as-written member | corrected member |
|---|---|---|---|---|---|---|
| src/main/java/com/ranushan/util/DateUtils.java:14-31 | `formatDate(Date)` formats `date.toInstant()` with a pattern formatter that has no time zone, so the year, month, day and time of an `Instant` cannot be resolved and the formatter throws `UnsupportedTemporalTypeException` | any non-null date | render the date as local date-time text, with a formatter given a zone | high; not executed | `DateUtils.FormatDateAsWritten`, shown by `DateUtils.FormatDateAsWrittenDiverges` | `DateUtils.FormatDate` |
| src/main/java/com/ranushan/runner/timer/TimerBatch.java:64-75 | with INFO logging on, `getInitialDelay` formats the aligned first fire for the log, which throws, so a modulated timer cannot start | a modulated 5-second timer started at midnight with INFO logging on | the log line is written and the delay returned | high; not executed | `TimerBatch.InitialDelayAsWritten`, shown by `TimerBatch.InfoLoggingBreaksModulatedStart` | `TimerBatch.InitialDelay` |
| src/main/java/com/ranushan/runner/cron/CronBatch.java:82-102 | with INFO logging on, `scheduleNextExecution` throws after arming a fire and recording its date; `start` then leaves the batch SET with a fire pending, and after a run the throw is swallowed by `run` | any expression with a next occurrence, started with INFO logging on | the log line is written and scheduling returns normally | high; not executed | `CronBatch.ScheduleNextExecutionAsWritten`, shown by `CronBatch.InfoLoggingBreaksCronStart` | `CronBatch.ScheduleNextExecution` |
