/** The two kinds of batch and the interval each assumes when none is configured. */
module BatchTypes {
  import opened Outcomes
  import opened TimeUnits
  import opened TimeIntervals

  datatype BatchType = TIMER | CRON

  /** The interval a configuration gets when it leaves its own empty. */
  function DefaultInterval(t: BatchType): string
  {
    match t
    case TIMER => "1 minute"
    case CRON => "* * * * *"
  }

  /** TIMER's default, "1 minute", parses to one minute, that is 60000 ms. */
  lemma TimerDefaultIsOneMinute()
    ensures Of(DefaultInterval(TIMER)) == Success(TimeInterval(1, MINUTES))
    ensures IntervalMillis(TimeInterval(1, MINUTES)) == 60_000
  {
    var s := DefaultInterval(TIMER);
    assert IsFirstRun(s, Digits, 0, 1) && IsFirstRun(s, Letters, 2, 8);
    assert s[0..1] == "1" && s[2..8] == "minute";
    assert DecimalValue("1") == 1;
    FindsOwnAlias(MINUTES, "minute");
    OfByRuns(s, 0, 1, 2, 8, MINUTES);
  }

  /** CRON's default fires every minute and holds no digit, so it is not an interval. */
  lemma CronDefaultIsNotAnInterval()
    ensures DefaultInterval(CRON) == "* * * * *"
    ensures Of(DefaultInterval(CRON)).Failure?
  {
    NoDigitRejected(DefaultInterval(CRON));
  }
}
