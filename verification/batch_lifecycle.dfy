/** What the lifecycle of a batch guarantees across operations: the invariant every
    batch keeps between operations, and the promises of `start`, `stop` and `run`
    about one another. */
module BatchLifecycle {
  import opened Outcomes
  import opened DateUtils
  import opened TimeIntervals
  import opened BatchTypes
  import opened BatchConfigurations
  import opened DurationHistory
  import opened AbstractBatch
  import TimerBatch
  import CronBatch

  /** A batch at rest, between two operations:
      - it is SET, STARTED or STOPPED (RUNNING lasts only while its task executes);
      - a stop was requested exactly when it is STOPPED;
      - it has a start date exactly when it is STARTED;
      - without statistics its history holds nothing;
      - the last entry of the history is the last recorded duration;
      - its strategy matches its type, a timer keeps the interval its configuration
        parses to, and a fire is pending only while it is STARTED (a timer's recurring
        schedule exactly then). */
  ghost predicate Wf(b: Batch)
  {
    && b.state in {SET, STARTED, STOPPED}
    && (b.stopRequested <==> b.state == STOPPED)
    && (b.startDate.Some? <==> b.state == STARTED)
    && (b.configuration.enableStatistics || b.history.capacity == 0)
    && (|b.history.items| > 0 ==> b.lastRunDuration == Some(b.history.items[|b.history.items| - 1]))
    && (b.strategy.Timer? <==> b.configuration.batchType == TIMER)
    && (b.strategy.Timer? ==>
          && Of(b.configuration.interval) == Success(b.strategy.timer.interval)
          && (b.strategy.timer.schedule.Some? <==> b.state == STARTED)
          && (b.strategy.timer.schedule.Some? ==>
                b.strategy.timer.schedule.value.period == IntervalMillis(b.strategy.timer.interval) > 0))
    && (b.strategy.Cron? ==> (b.strategy.cron.nextExecutionDate.Some? ==> b.state == STARTED))
  }

  /** A timer batch is built well formed, in state SET. */
  lemma NewTimerBatchWf(configuration: BatchConfiguration, holder: Holder)
    requires NewTimerBatch(configuration, holder).Success?
    ensures Wf(NewTimerBatch(configuration, holder).value)
    ensures NewTimerBatch(configuration, holder).value.state == SET
  {
  }

  /** A cron batch is built well formed, in state SET, with nothing pending. */
  lemma NewCronBatchWf(configuration: BatchConfiguration, holder: Holder, lib: CronBatch.CronLibrary)
    requires NewCronBatch(configuration, holder, lib).Success?
    ensures Wf(NewCronBatch(configuration, holder, lib).value)
    ensures NewCronBatch(configuration, holder, lib).value.strategy.cron.nextExecutionDate.None?
  {
  }

  /** `start` keeps a batch well formed; from SET it succeeds exactly when the strategy
      can be armed (a timer needs a positive interval). */
  lemma StartPreservesWf(b: Batch, now: Instant, lib: CronBatch.CronLibrary)
    requires Wf(b)
    ensures Start(b, now, lib).Success? ==> Wf(Start(b, now, lib).value)
    ensures Start(b, now, lib).Success? <==>
              b.state == SET && (b.strategy.Timer? ==> b.strategy.timer.interval.duration > 0)
  {
  }

  /** `stop` keeps a batch well formed, whether it fails or not. */
  lemma StopPreservesWf(b: Batch)
    requires Wf(b)
    ensures Wf(Stop(b).state)
    ensures Stop(b).outcome.Fail? <==> b.state == STOPPED
  {
  }

  /** A run of a batch at rest never fails, and leaves it well formed, in the state it
      was in, with the same start date and schedule pending. */
  lemma RunPreservesWf(b: Batch, manual: bool, now: Instant, outcome: TaskOutcome, lib: CronBatch.CronLibrary)
    requires Wf(b)
    ensures Run(b, manual, now, outcome, lib).Success?
    ensures Wf(Run(b, manual, now, outcome, lib).value)
  {
    var r := Run(b, manual, now, outcome, lib).value;
    if !(b.stopRequested && !manual) {
      var running := BeginRun(b, now);
      var done := Execute(running, now, outcome, lib);
      assert r == SetState(done, done.previousState.value);
      if outcome.Completed? {
        var recorded := UpdateStatistics(running, outcome.elapsed);
        assert done.history == recorded.history;
        if b.configuration.enableStatistics {
          assert recorded.history == Offer(b.history, outcome.elapsed);
        }
      }
    }
  }

  /** A started batch cannot be started again. */
  lemma StartTwiceFails(b: Batch, now: Instant, later: Instant, lib: CronBatch.CronLibrary)
    requires Start(b, now, lib).Success?
    ensures Start(Start(b, now, lib).value, later, lib) == Failure(IllegalState(MSG_BATCH_ALREADY_STARTED))
  {
  }

  /** A stopped batch cannot be restarted: it must be reset (rebuilt) first. */
  lemma StopThenStartFails(b: Batch, now: Instant, lib: CronBatch.CronLibrary)
    ensures Start(Stop(b).state, now, lib) == Failure(IllegalState(MSG_BATCH_STOPPED_RESET_FIRST))
  {
  }

  /** Stopping twice fails the second time, and changes nothing more. */
  lemma StopTwiceFails(b: Batch)
    ensures Stop(Stop(b).state) == Effect(Stop(b).state, Fail(IllegalState(MSG_BATCH_ALREADY_STOPPED)))
  {
  }

  /** Once a stop was requested, automatic fires do nothing at all, while a manual run
      still executes the task. */
  lemma StopBlocksAutomaticFires(b: Batch, now: Instant, outcome: TaskOutcome, lib: CronBatch.CronLibrary)
    ensures Run(Stop(b).state, false, now, outcome, lib) == Success(Stop(b).state)
    ensures Run(Stop(b).state, true, now, outcome, lib).Success? ==>
              Run(Stop(b).state, true, now, outcome, lib).value.lastRun == Some(now)
  {
  }

  /** While the task executes, the batch counts as started exactly when it was started
      before; afterwards the state it came from is back and RUNNING is remembered as the
      previous state. */
  lemma RunRestoresState(b: Batch, manual: bool, now: Instant, outcome: TaskOutcome, lib: CronBatch.CronLibrary)
    requires !IsRunning(b) && !(b.stopRequested && !manual)
    ensures IsRunning(BeginRun(b, now)) && (IsStarted(BeginRun(b, now)) <==> b.state == STARTED)
    ensures Run(b, manual, now, outcome, lib).Success?
    ensures Run(b, manual, now, outcome, lib).value.state == b.state
    ensures Run(b, manual, now, outcome, lib).value.previousState == Some(RUNNING)
  {
  }

  /** A manual run while the task executes is refused; an automatic one is skipped. */
  lemma OverlappingRunRefused(b: Batch, now: Instant, outcome: TaskOutcome, lib: CronBatch.CronLibrary)
    requires IsRunning(b)
    ensures Run(b, true, now, outcome, lib) == Failure(IllegalState(MSG_BATCH_ALREADY_RUNNING))
    ensures Run(b, false, now, outcome, lib) == Success(b)
  {
  }

  /** A completed run records its duration, and adds it to the history only when
      statistics are enabled; a run whose task throws records nothing. */
  lemma RunRecordsStatistics(b: Batch, manual: bool, now: Instant, outcome: TaskOutcome, lib: CronBatch.CronLibrary)
    requires !IsRunning(b) && !(b.stopRequested && !manual)
    ensures var r := Run(b, manual, now, outcome, lib).value;
            && r.lastRun == Some(now)
            && (outcome.Threw? ==> r.lastRunDuration == b.lastRunDuration && r.history == b.history)
            && (outcome.Completed? ==> r.lastRunDuration == Some(outcome.elapsed))
            && (outcome.Completed? && b.configuration.enableStatistics ==> r.history == Offer(b.history, outcome.elapsed))
            && (outcome.Completed? && !b.configuration.enableStatistics ==> r.history == b.history)
  {
  }

  /** A cron batch fired automatically while started re-arms exactly when its task
      completed and the expression has a next occurrence; a task that throws leaves
      the fire it consumed unreplaced. */
  lemma CronRearmsAfterAutomaticFire(b: Batch, now: Instant, outcome: TaskOutcome, lib: CronBatch.CronLibrary)
    requires Wf(b) && b.strategy.Cron? && b.state == STARTED
    ensures var r := Run(b, false, now, outcome, lib).value;
            && r.strategy.Cron?
            && (r.strategy.cron.nextExecutionDate.Some? <==>
                  (outcome.Completed? && lib.timeToNext(b.strategy.cron.expression, now).Some?) ||
                  (outcome.Threw? && b.strategy.cron.nextExecutionDate.Some?))
            && (outcome.Completed? && r.strategy.cron.nextExecutionDate.Some? ==>
                  r.strategy.cron.nextExecutionDate.value == now + lib.timeToNext(b.strategy.cron.expression, now).value)
  {
  }

  /** A manual run of a cron batch that is not started arms nothing. */
  lemma CronManualRunWhenIdleArmsNothing(b: Batch, now: Instant, outcome: TaskOutcome, lib: CronBatch.CronLibrary)
    requires Wf(b) && b.strategy.Cron? && b.state != STARTED
    ensures Run(b, true, now, outcome, lib).value.strategy.cron.nextExecutionDate.None?
  {
  }

  /** A run never touches a timer's recurring schedule. */
  lemma TimerRunKeepsSchedule(b: Batch, manual: bool, now: Instant, outcome: TaskOutcome, lib: CronBatch.CronLibrary)
    requires b.strategy.Timer? && Run(b, manual, now, outcome, lib).Success?
    ensures Run(b, manual, now, outcome, lib).value.strategy == b.strategy
  {
  }
}
