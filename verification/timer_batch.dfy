/** The fixed-interval strategy: a recurring timer, optionally aligned on the next
    boundary of its interval. */
module TimerBatch {
  import opened Outcomes
  import opened TimeUnits
  import opened TimeIntervals
  import opened DateUtils

  /** A recurring schedule handed to the executor: first fire after `initialDelay`
      milliseconds, then every `period` milliseconds measured from that first fire. */
  datatype FixedRate = FixedRate(initialDelay: int, period: nat)

  /** The interval parsed at construction, and the recurring schedule while armed. */
  datatype TimerStrategy = TimerStrategy(interval: TimeInterval, schedule: Option<FixedRate>)

  /** `getInitialDelay`: zero without modulation; otherwise the time from `now` to the
      aligned boundary, which is positive and at most one interval. */
  function InitialDelay(interval: TimeInterval, modulate: bool, now: Instant): (r: Result<int>)
    ensures !modulate ==> r == Success(0)
    ensures modulate && interval.duration == 0 ==> r.Failure? && r.error.Arithmetic?
    ensures modulate && interval.duration > 0 ==>
              r.Success? && 0 < r.value <= interval.duration * Millis(interval.unit)
  {
    if !modulate then Success(0)
    else
      match NextExactDateEveryInterval(interval.duration, interval.unit, Some(now))
      case Failure(e) => Failure(e)
      case Success(start) =>
        AlignmentBounds(interval.duration, interval.unit, now);
        Success(start - now)
  }

  /** `getInitialDelay` as written: with INFO logging enabled, the aligned first fire is
      formatted for the log before the delay is returned, and that formatting throws.
      With logging off it is the intended delay. */
  function InitialDelayAsWritten(interval: TimeInterval, modulate: bool, now: Instant, infoEnabled: bool): (r: Result<int>)
    ensures !infoEnabled ==> r == InitialDelay(interval, modulate, now)
    ensures infoEnabled && !modulate ==> r == Success(0)
    ensures infoEnabled && modulate ==> r.Failure?
    ensures infoEnabled && modulate && interval.duration > 0 ==> r.error.UnsupportedTemporalType?
  {
    if !modulate then Success(0)
    else
      var start :- NextExactDateEveryInterval(interval.duration, interval.unit, Some(now));
      if infoEnabled then Failure(FormatDateAsWritten(Some(start)).error)
      else
        AlignmentBounds(interval.duration, interval.unit, now);
        Success(start - now)
  }

  /** A modulated five-second timer started at midnight: the intended first fire is five
      seconds later; as written, with INFO logging on, the start throws. */
  lemma InfoLoggingBreaksModulatedStart()
    ensures InitialDelay(TimeInterval(5, SECONDS), true, 0) == Success(5000)
    ensures InitialDelayAsWritten(TimeInterval(5, SECONDS), true, 0, true).Failure?
  {
    assert NextExactDateEveryInterval(5, SECONDS, Some(0)) == Success(5000);
  }

  /** `onStart`: computes the initial delay, then arms a fixed-rate schedule whose period
      is the interval in milliseconds. The executor refuses a period that is not
      positive (IllegalArgument); with modulation a zero interval already fails while
      the delay is computed. */
  function OnStart(t: TimerStrategy, modulate: bool, now: Instant): (r: Result<TimerStrategy>)
    ensures r.Success? <==> t.interval.duration > 0
    ensures r.Failure? ==> (if modulate then r.error.Arithmetic? else r.error.IllegalArgument?)
    ensures r.Success? ==>
              && r.value.interval == t.interval
              && r.value.schedule.Some?
              && r.value.schedule.value.period == IntervalMillis(t.interval)
              && Success(r.value.schedule.value.initialDelay) == InitialDelay(t.interval, modulate, now)
  {
    var delay :- InitialDelay(t.interval, modulate, now);
    var period := IntervalMillis(t.interval);
    if period == 0 then Failure(IllegalArgument("period must be positive"))
    else Success(t.(schedule := Some(FixedRate(delay, period))))
  }

  /** `onStop`: the executor is shut down; no further fire is scheduled. */
  function OnStop(t: TimerStrategy): (r: TimerStrategy)
    ensures r.schedule.None? && r.interval == t.interval
  {
    t.(schedule := None)
  }

  /** `afterRun`: nothing to do, the recurring schedule sustains itself. */
  function AfterRun(t: TimerStrategy): (r: TimerStrategy)
    ensures r.schedule == t.schedule && r.interval == t.interval
  {
    t
  }
}
