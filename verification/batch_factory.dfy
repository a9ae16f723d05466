/** Building a managed batch from its configuration: the variant is chosen by the
    configuration's type, and the batch class must be loadable. */
module BatchFactory {
  import opened Outcomes
  import opened TimeIntervals
  import opened BatchTypes
  import opened BatchConfigurations
  import opened AbstractBatch
  import opened BatchLifecycle
  import CronBatch

  /** What creation depends on but is not modelled: the cron library, and whether a class
      name can be loaded, holds a single public no-argument `@Run` method and can be
      instantiated. */
  datatype Env = Env(cron: CronBatch.CronLibrary, loadable: string -> bool)

  const MSG_CONFIGURATION_NULL: string := "The BatchConfiguration must not be null"
  const MSG_HOLDER_NULL: string := "The ConfigurationHolder must not be null"

  /** The variant constructor accepts the interval: a timer's parses as a time
      interval, a cron batch's as a cron expression. */
  ghost predicate IntervalAccepted(configuration: BatchConfiguration, env: Env)
  {
    match configuration.batchType
    case TIMER => Of(configuration.interval).Success?
    case CRON => env.cron.parse(configuration.interval).Some?
  }

  /** The type's factory function: the variant constructor, then the dynamic task
      object, whose reflective failures become `InvalidClass`. A bad interval is
      reported before a bad class. */
  function Instantiate(configuration: BatchConfiguration, holder: Holder, env: Env): (r: Result<Batch>)
    ensures r.Success? <==> IntervalAccepted(configuration, env) && env.loadable(configuration.className)
    ensures r == Failure(InvalidClass(configuration.className)) <==>
              IntervalAccepted(configuration, env) && !env.loadable(configuration.className)
    ensures !IntervalAccepted(configuration, env) ==> r.Failure? && r.error.IllegalArgument?
  {
    var b :- match configuration.batchType
             case TIMER => NewTimerBatch(configuration, holder)
             case CRON => NewCronBatch(configuration, holder, env.cron);
    if env.loadable(configuration.className) then Success(b)
    else Failure(InvalidClass(configuration.className))
  }

  /** `BatchFactory.create`: both arguments must be present; the result carries the
      configuration, matches its type and is a fresh, well formed batch in state SET. */
  function Create(configuration: Option<BatchConfiguration>, holder: Option<Holder>, env: Env): (r: Result<Batch>)
    ensures configuration.None? ==> r == Failure(NullPointer(MSG_CONFIGURATION_NULL))
    ensures configuration.Some? && holder.None? ==> r == Failure(NullPointer(MSG_HOLDER_NULL))
    ensures configuration.Some? && holder.Some? ==> r == Instantiate(configuration.value, holder.value, env)
    ensures r.Success? ==>
              && r.value.configuration == configuration.value
              && r.value.state == SET
              && !r.value.stopRequested
              && r.value.lastRun.None?
              && (r.value.strategy.Timer? <==> configuration.value.batchType == TIMER)
              && Wf(r.value)
  {
    if configuration.None? then Failure(NullPointer(MSG_CONFIGURATION_NULL))
    else if holder.None? then Failure(NullPointer(MSG_HOLDER_NULL))
    else
      var r := Instantiate(configuration.value, holder.value, env);
      if r.Success? then
        CreatedWf(configuration.value, holder.value, env);
        r
      else r
  }

  /** The batch the factory returns is well formed. */
  lemma CreatedWf(configuration: BatchConfiguration, holder: Holder, env: Env)
    requires Instantiate(configuration, holder, env).Success?
    ensures Wf(Instantiate(configuration, holder, env).value)
    ensures Instantiate(configuration, holder, env).value.configuration == configuration
    ensures Instantiate(configuration, holder, env).value.state == SET
  {
    match configuration.batchType
    case TIMER => NewTimerBatchWf(configuration, holder);
    case CRON => NewCronBatchWf(configuration, holder, env.cron);
  }

  /** Creation depends only on the configuration and the environment: creating twice
      gives the same fresh batch, which is what a reset relies on. */
  lemma CreateIsFresh(configuration: BatchConfiguration, holder: Holder, env: Env)
    requires Create(Some(configuration), Some(holder), env).Success?
    ensures var b := Create(Some(configuration), Some(holder), env).value;
            && b.previousState.None? && b.startDate.None? && b.lastRunDuration.None?
            && b.history.items == [] && b.history.capacity == MaxHistorySize(configuration, holder)
  {
  }

  /** The built-in default configurations: a timer with the default interval builds as
      soon as its class loads. */
  lemma DefaultTimerCreates(c: BatchConfiguration, holder: Holder, env: Env)
    requires c.batchType == TIMER && c.interval == DefaultInterval(TIMER) && env.loadable(c.className)
    ensures Create(Some(c), Some(holder), env).Success?
    ensures Create(Some(c), Some(holder), env).value.strategy.timer.interval.duration == 1
  {
    TimerDefaultIsOneMinute();
  }
}
