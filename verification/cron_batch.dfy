/** The calendar-expression strategy: one one-shot fire at a time, re-armed after each
    successful run while the batch is started. */
module CronBatch {
  import opened Outcomes
  import opened DateUtils

  /** The cron library, which is not modelled: `parse` normalises an expression or
      rejects it, `timeToNext` gives the delay from an instant to the expression's next
      occurrence, if it has one. */
  datatype CronLibrary = CronLibrary(
    parse: string -> Option<string>,
    timeToNext: (string, Instant) -> Option<nat>)

  /** The normalised expression, and the date of the pending fire, if any. */
  datatype CronStrategy = CronStrategy(expression: string, nextExecutionDate: Option<Instant>)

  /** `parseCron`: a malformed expression is rejected when the batch is built. */
  function ParseCron(expression: string, lib: CronLibrary): (r: Result<string>)
    ensures r.Success? <==> lib.parse(expression).Some?
    ensures r.Success? ==> r.value == lib.parse(expression).value
    ensures r.Failure? ==> r.error.IllegalArgument?
  {
    match lib.parse(expression)
    case None => Failure(IllegalArgument("Invalid cron expression"))
    case Some(normalised) => Success(normalised)
  }

  /** `scheduleNextExecution`: clears the pending date, then, on the first scheduling or
      while the batch is started and no stop was requested, arms a one-shot fire at the
      next occurrence, when there is one. */
  function ScheduleNextExecution(c: CronStrategy, firstExecution: bool, started: bool, stopRequested: bool,
                                 now: Instant, lib: CronLibrary): (r: CronStrategy)
    ensures r.expression == c.expression
    ensures r.nextExecutionDate.Some? <==>
              (firstExecution || (started && !stopRequested)) && lib.timeToNext(c.expression, now).Some?
    ensures r.nextExecutionDate.Some? ==> r.nextExecutionDate.value == now + lib.timeToNext(c.expression, now).value
  {
    var cleared := c.(nextExecutionDate := None);
    if firstExecution || (started && !stopRequested) then
      match lib.timeToNext(c.expression, now)
      case Some(delay) => cleared.(nextExecutionDate := Some(now + delay))
      case None => cleared
    else cleared
  }

  /** `scheduleNextExecution` as written: the fire is armed and its date recorded, and
      then, with INFO logging enabled, the date is formatted for the log, which throws.
      The armed state is the intended one; only the outcome differs. */
  function ScheduleNextExecutionAsWritten(c: CronStrategy, firstExecution: bool, started: bool, stopRequested: bool,
                                          now: Instant, lib: CronLibrary, infoEnabled: bool): (r: Effect<CronStrategy>)
    ensures r.state == ScheduleNextExecution(c, firstExecution, started, stopRequested, now, lib)
    ensures r.outcome.Fail? <==> infoEnabled && r.state.nextExecutionDate.Some?
    ensures r.outcome.Fail? ==> r.outcome.error.UnsupportedTemporalType?
  {
    var scheduled := ScheduleNextExecution(c, firstExecution, started, stopRequested, now, lib);
    if infoEnabled && scheduled.nextExecutionDate.Some? then
      match FormatDateAsWritten(scheduled.nextExecutionDate)
      case Failure(e) => Effect(scheduled, Fail(e))
      case Success(_) => Effect(scheduled, Pass)
    else Effect(scheduled, Pass)
  }

  /** As written, with INFO logging on, `onStart` of an expression that has a next
      occurrence throws after arming it: `start` then leaves the batch SET with a fire
      pending. The intended `onStart` arms the same fire and returns normally. */
  lemma InfoLoggingBreaksCronStart(c: CronStrategy, now: Instant, lib: CronLibrary)
    requires lib.timeToNext(c.expression, now).Some?
    ensures var r := ScheduleNextExecutionAsWritten(c, true, false, false, now, lib, true);
            && r.outcome.Fail?
            && r.state == OnStart(c, now, lib)
            && r.state.nextExecutionDate == Some(now + lib.timeToNext(c.expression, now).value)
  {
  }

  /** `onStart`: the first scheduling, made before the batch counts as started. */
  function OnStart(c: CronStrategy, now: Instant, lib: CronLibrary): (r: CronStrategy)
    ensures r.expression == c.expression
    ensures r.nextExecutionDate.Some? <==> lib.timeToNext(c.expression, now).Some?
  {
    ScheduleNextExecution(c, true, false, false, now, lib)
  }

  /** `onStop`: the executor is shut down and the pending date cleared. */
  function OnStop(c: CronStrategy): (r: CronStrategy)
    ensures r.nextExecutionDate.None? && r.expression == c.expression
  {
    c.(nextExecutionDate := None)
  }

  /** `afterRun`: a later scheduling, which arms only a started, not stopping, batch. */
  function AfterRun(c: CronStrategy, started: bool, stopRequested: bool, now: Instant, lib: CronLibrary): (r: CronStrategy)
    ensures r.expression == c.expression
    ensures !started || stopRequested ==> r.nextExecutionDate.None?
    ensures started && !stopRequested ==> (r.nextExecutionDate.Some? <==> lib.timeToNext(c.expression, now).Some?)
  {
    ScheduleNextExecution(c, false, started, stopRequested, now, lib)
  }

  /** `getNextExecutionDate`: empty exactly when no fire is pending. */
  function NextExecutionDate(c: CronStrategy): (r: Option<Instant>)
    ensures r.None? <==> c.nextExecutionDate.None?
    ensures r.Some? ==> r.value == c.nextExecutionDate.value
  {
    c.nextExecutionDate
  }
}
