/** One managed batch: its lifecycle state machine, its run statistics and the hooks of
    its scheduling strategy.

    Every public operation is one atomic step from a batch value to the next. The task
    body is not modelled: a run is told whether the task completed (and how long it
    took, in nanoseconds) or threw. The clock is the `now` parameter. */
module AbstractBatch {
  import opened Outcomes
  import opened DateUtils
  import opened TimeIntervals
  import opened BatchTypes
  import opened BatchConfigurations
  import opened DurationHistory
  import TimerBatch
  import CronBatch
  import DurationUtils

  datatype State = SET | STARTED | RUNNING | STOPPED | ERROR

  /** The one global setting a batch reads: the configured history size. */
  datatype Holder = Holder(maxBatchHistorySize: int)

  datatype Strategy = Timer(timer: TimerBatch.TimerStrategy) | Cron(cron: CronBatch.CronStrategy)

  datatype Batch = Batch(
    configuration: BatchConfiguration,
    state: State,
    previousState: Option<State>,
    startDate: Option<Instant>,
    lastRun: Option<Instant>,
    lastRunDuration: Option<int>,
    history: BoundedHistory,
    stopRequested: bool,
    strategy: Strategy)

  /** What the task body did on one run. */
  datatype TaskOutcome = Completed(elapsed: int) | Threw

  const MSG_BATCH_ALREADY_STARTED: string := "Batch already started"
  const MSG_BATCH_ALREADY_STOPPED: string := "Batch already stopped"
  const MSG_BATCH_ALREADY_RUNNING: string := "Batch task already in execution"
  const MSG_BATCH_STOPPED_RESET_FIRST: string := "Batch was stopped. Please reset this batch before restarting"
  const NOT_ENABLED: string := "not enabled"

  function Name(b: Batch): string { b.configuration.name }

  /** `setState`: the current state becomes the previous one. */
  function SetState(b: Batch, s: State): (r: Batch)
    ensures r.state == s && r.previousState == Some(b.state)
  {
    b.(previousState := Some(b.state), state := s)
  }

  /** The timer (not the task) is started: STARTED, or RUNNING an automatic fire of a
      started batch. A manual run of an idle batch is RUNNING but not started. */
  predicate IsStarted(b: Batch)
  {
    b.state == STARTED || (b.state == RUNNING && b.previousState == Some(STARTED))
  }

  predicate IsRunning(b: Batch) { b.state == RUNNING }

  predicate IsStopped(b: Batch) { b.state == STOPPED }

  // ---- Construction ----

  /** `getMaxHistorySize`: the configured size, never negative, when statistics are
      enabled; zero otherwise. */
  function MaxHistorySize(configuration: BatchConfiguration, holder: Holder): (n: nat)
    ensures !configuration.enableStatistics ==> n == 0
    ensures configuration.enableStatistics && holder.maxBatchHistorySize >= 0 ==> n == holder.maxBatchHistorySize
    ensures configuration.enableStatistics && holder.maxBatchHistorySize < 0 ==> n == 0
  {
    if configuration.enableStatistics then
      if holder.maxBatchHistorySize > 0 then holder.maxBatchHistorySize else 0
    else 0
  }

  /** The fields every constructor sets: state SET, nothing run, nothing requested. */
  function Fresh(configuration: BatchConfiguration, holder: Holder, strategy: Strategy): (b: Batch)
    ensures b.state == SET && b.previousState.None? && !b.stopRequested
    ensures b.history.items == [] && b.history.capacity == MaxHistorySize(configuration, holder)
  {
    Batch(configuration, SET, None, None, None, None, Create(MaxHistorySize(configuration, holder)), false, strategy)
  }

  /** The timer constructor: refuses a non-TIMER configuration, then parses the interval
      (a parse failure propagates). */
  function NewTimerBatch(configuration: BatchConfiguration, holder: Holder): (r: Result<Batch>)
    ensures configuration.batchType != TIMER ==> r.Failure? && r.error.IllegalArgument?
    ensures configuration.batchType == TIMER ==> (r.Success? <==> Of(configuration.interval).Success?)
    ensures r.Success? ==>
              && r.value.configuration == configuration
              && r.value.strategy == Timer(TimerBatch.TimerStrategy(Of(configuration.interval).value, None))
              && r.value == Fresh(configuration, holder, r.value.strategy)
  {
    if configuration.batchType != TIMER then Failure(IllegalArgument("Not a timer batch"))
    else
      var interval :- Of(configuration.interval);
      Success(Fresh(configuration, holder, Timer(TimerBatch.TimerStrategy(interval, None))))
  }

  /** The cron constructor: refuses a non-CRON configuration, then parses the expression
      (a malformed one fails here). */
  function NewCronBatch(configuration: BatchConfiguration, holder: Holder, lib: CronBatch.CronLibrary): (r: Result<Batch>)
    ensures configuration.batchType != CRON ==> r.Failure? && r.error.IllegalArgument?
    ensures configuration.batchType == CRON ==> (r.Success? <==> lib.parse(configuration.interval).Some?)
    ensures r.Success? ==>
              && r.value.configuration == configuration
              && r.value.strategy == Cron(CronBatch.CronStrategy(lib.parse(configuration.interval).value, None))
              && r.value == Fresh(configuration, holder, r.value.strategy)
  {
    if configuration.batchType != CRON then Failure(IllegalArgument("Not a cron batch"))
    else
      var expression :- CronBatch.ParseCron(configuration.interval, lib);
      Success(Fresh(configuration, holder, Cron(CronBatch.CronStrategy(expression, None))))
  }

  // ---- Strategy hooks ----

  function OnStart(b: Batch, now: Instant, lib: CronBatch.CronLibrary): Result<Strategy>
  {
    match b.strategy
    case Timer(t) =>
      var t' :- TimerBatch.OnStart(t, b.configuration.modulate, now);
      Success(Timer(t'))
    case Cron(c) => Success(Cron(CronBatch.OnStart(c, now, lib)))
  }

  function OnStop(b: Batch): Strategy
  {
    match b.strategy
    case Timer(t) => Timer(TimerBatch.OnStop(t))
    case Cron(c) => Cron(CronBatch.OnStop(c))
  }

  function AfterRun(b: Batch, now: Instant, lib: CronBatch.CronLibrary): Strategy
  {
    match b.strategy
    case Timer(t) => Timer(TimerBatch.AfterRun(t))
    case Cron(c) => Cron(CronBatch.AfterRun(c, IsStarted(b), b.stopRequested, now, lib))
  }

  // ---- Lifecycle ----

  /** `start`: refused when STARTED or STOPPED (a stopped batch must be reset), and when
      an automatic fire of a started batch is in flight; otherwise the strategy is
      armed, then the state becomes STARTED and the start date is recorded. A failing
      hook leaves the batch as it was. */
  function Start(b: Batch, now: Instant, lib: CronBatch.CronLibrary): (r: Result<Batch>)
    ensures b.state == STARTED ==> r == Failure(IllegalState(MSG_BATCH_ALREADY_STARTED))
    ensures b.state == STOPPED ==> r == Failure(IllegalState(MSG_BATCH_STOPPED_RESET_FIRST))
    ensures r.Failure? <==> IsStarted(b) || IsStopped(b) || OnStart(b, now, lib).Failure?
    ensures r.Success? ==>
              && r.value.state == STARTED
              && r.value.previousState == Some(b.state)
              && r.value.startDate == Some(now)
              && r.value.strategy == OnStart(b, now, lib).value
              && r.value == b.(state := STARTED, previousState := Some(b.state), startDate := Some(now),
                               strategy := r.value.strategy)
  {
    if b.state == STARTED then Failure(IllegalState(MSG_BATCH_ALREADY_STARTED))
    else if b.state == STOPPED then Failure(IllegalState(MSG_BATCH_STOPPED_RESET_FIRST))
    else if IsStarted(b) then Failure(IllegalState(MSG_BATCH_ALREADY_STARTED))
    else
      var strategy :- OnStart(b, now, lib);
      Success(SetState(b.(strategy := strategy), STARTED).(startDate := Some(now)))
  }

  /** `stop`: the stop request is recorded first and survives the failure of stopping a
      batch that is already STOPPED; otherwise the strategy is disarmed, the state
      becomes STOPPED and the start date is cleared. */
  function Stop(b: Batch): (r: Effect<Batch>)
    ensures r.state.stopRequested
    ensures IsStopped(b) ==> r == Effect(b.(stopRequested := true), Fail(IllegalState(MSG_BATCH_ALREADY_STOPPED)))
    ensures !IsStopped(b) ==>
              && r.outcome == Pass
              && r.state.state == STOPPED
              && r.state.previousState == Some(b.state)
              && r.state.startDate.None?
              && r.state == b.(stopRequested := true, state := STOPPED, previousState := Some(b.state),
                               startDate := None, strategy := r.state.strategy)
  {
    var requested := b.(stopRequested := true);
    if IsStopped(requested) then Effect(requested, Fail(IllegalState(MSG_BATCH_ALREADY_STOPPED)))
    else Effect(SetState(requested.(strategy := OnStop(requested)), STOPPED).(startDate := None), Pass)
  }

  /** The batch while its task executes: RUNNING, remembering the state it came from. */
  function BeginRun(b: Batch, now: Instant): (r: Batch)
    ensures IsRunning(r) && r.previousState == Some(b.state) && r.lastRun == Some(now)
    ensures IsStarted(r) <==> b.state == STARTED
  {
    SetState(b, RUNNING).(lastRun := Some(now))
  }

  /** `updateStatistics`: the last duration is always recorded; it joins the history
      only when statistics are enabled. */
  function UpdateStatistics(b: Batch, elapsed: int): (r: Batch)
    ensures r.lastRunDuration == Some(elapsed)
    ensures b.configuration.enableStatistics ==> r.history == Offer(b.history, elapsed)
    ensures !b.configuration.enableStatistics ==> r.history == b.history
    ensures r == b.(lastRunDuration := r.lastRunDuration, history := r.history)
  {
    b.(lastRunDuration := Some(elapsed),
       history := if b.configuration.enableStatistics then Offer(b.history, elapsed) else b.history)
  }

  /** The batch after the task and, when it completed, the statistics and `afterRun`;
      a task that throws leaves both untouched. */
  function Execute(running: Batch, now: Instant, outcome: TaskOutcome, lib: CronBatch.CronLibrary): (r: Batch)
    ensures r.state == running.state && r.previousState == running.previousState
    ensures outcome.Threw? ==> r == running
  {
    match outcome
    case Threw => running
    case Completed(elapsed) =>
      var recorded := UpdateStatistics(running, elapsed);
      recorded.(strategy := AfterRun(recorded, now, lib))
  }

  /** `run(manual)`: a late automatic fire after a stop request does nothing; a run
      while RUNNING fails when manual and is skipped when automatic; otherwise the task
      runs with the batch RUNNING and the prior state is restored afterwards, whatever
      the task did. */
  function Run(b: Batch, manual: bool, now: Instant, outcome: TaskOutcome, lib: CronBatch.CronLibrary): (r: Result<Batch>)
    ensures b.stopRequested && !manual ==> r == Success(b)
    ensures !(b.stopRequested && !manual) && IsRunning(b) ==>
              (if manual then r == Failure(IllegalState(MSG_BATCH_ALREADY_RUNNING)) else r == Success(b))
    ensures r.Failure? <==> manual && IsRunning(b)
    ensures !IsRunning(b) && !(b.stopRequested && !manual) ==> r.Success? && r.value.lastRun == Some(now)
    ensures r.Success? ==>
              && r.value.state == b.state
              && r.value.configuration == b.configuration
              && r.value.startDate == b.startDate
              && r.value.stopRequested == b.stopRequested
  {
    if b.stopRequested && !manual then Success(b)
    else if IsRunning(b) then
      if manual then Failure(IllegalState(MSG_BATCH_ALREADY_RUNNING)) else Success(b)
    else
      var running := BeginRun(b, now);
      var done := Execute(running, now, outcome, lib);
      Success(SetState(done, done.previousState.value))
  }

  // ---- Statistics reporting ----

  /** `getAverageRunDuration`: the average of the retained durations. */
  function AverageRunDuration(b: Batch): int
  {
    AverageOf(b.history)
  }

  /** `formatDuration`: `null` renders as `"null"`; a duration goes through its text
      form, which is not modelled. */
  function FormatDuration(d: Option<int>, render: int -> string): (r: string)
    ensures d.None? ==> r == "null"
    ensures d.Some? ==> r == render(d.value)
  {
    match d
    case None => "null"
    case Some(v) => render(v)
  }

  /** `formatAverageRunDuration`: the literal `"not enabled"` without statistics. */
  function FormatAverageRunDuration(b: Batch, render: int -> string): (r: string)
    ensures !b.configuration.enableStatistics ==> r == "not enabled"
    ensures b.configuration.enableStatistics ==> r == render(AverageRunDuration(b))
  {
    if b.configuration.enableStatistics then FormatDuration(Some(AverageRunDuration(b)), render)
    else NOT_ENABLED
  }
}
