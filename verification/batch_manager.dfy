/** The registry of managed batches: batches by name, and the configuration each batch
    class was registered with. Every operation on one batch looks it up by name and
    delegates to it. */
module BatchManager {
  import opened Outcomes
  import opened StringUtils
  import opened DateUtils
  import opened BatchConfigurations
  import opened AbstractBatch
  import opened BatchLifecycle
  import opened BatchFactory
  import opened StringOrder

  /** `batchesByName` and `batchesByClass`, both sorted maps, and the configuration
      holder (`None` when `null`). */
  datatype Manager = Manager(
    byName: map<string, Batch>,
    byClass: map<string, BatchConfiguration>,
    holder: Option<Holder>)

  const MSG_NAME_EMPTY: string := "The name cannot be null or empty"

  function InvalidBatchMessage(name: string): string
  {
    "Invalid batch: " + name
  }

  function StartedPleaseStopFirstMessage(name: string): string
  {
    "'" + name + "' is started. Please stop the batch before this operation."
  }

  /** What registration maintains, for a fixed environment:
      - a batch is filed under its own name, and its class under the configuration the
        batch was built from;
      - a class is filed under its own name;
      - every managed batch is at rest and can be rebuilt from its configuration. */
  ghost predicate Registry(m: Manager, env: Env)
  {
    && m.holder.Some?
    && (forall c :: c in m.byClass ==> m.byClass[c].className == c)
    && (forall n :: n in m.byName ==> Filed(m, n))
    && (forall n :: n in m.byName ==> Rebuildable(m.byName[n], m.holder, env))
  }

  /** The batch under `n` bears that name and its class is filed under its configuration. */
  ghost predicate Filed(m: Manager, n: string)
    requires n in m.byName
  {
    && m.byName[n].configuration.name == n
    && m.byName[n].configuration.className in m.byClass
    && m.byClass[m.byName[n].configuration.className] == m.byName[n].configuration
  }

  /** The batch is at rest and the factory can build it again from its configuration. */
  ghost predicate Rebuildable(b: Batch, holder: Option<Holder>, env: Env)
  {
    Wf(b) && Create(Some(b.configuration), holder, env).Success?
  }

  /** A manager with nothing registered. */
  function Empty(holder: Holder): (m: Manager)
    ensures m.byName == map[] && m.byClass == map[] && m.holder == Some(holder)
  {
    Manager(map[], map[], Some(holder))
  }

  lemma EmptyRegistry(holder: Holder, env: Env)
    ensures Registry(Empty(holder), env)
  {
  }

  // ---- Registration ----

  /** `instantiateBatchQuietly`: a class already registered is skipped, and a batch that
      cannot be created is skipped too (its error is only logged). */
  function InstantiateBatchQuietly(m: Manager, configuration: BatchConfiguration, env: Env): (r: Option<Batch>)
    ensures configuration.className in m.byClass ==> r.None?
    ensures configuration.className !in m.byClass ==> (r.Some? <==> Create(Some(configuration), m.holder, env).Success?)
    ensures r.Some? ==> r.value.configuration == configuration && r.value.state == SET && Wf(r.value)
  {
    if configuration.className in m.byClass then None
    else
      match Create(Some(configuration), m.holder, env)
      case Success(b) => Some(b)
      case Failure(_) => None
  }

  /** `addBatch`: files the batch under its name (replacing any batch of that name) and
      its configuration under its class; every other entry stays. */
  function AddBatch(m: Manager, b: Batch): (r: Manager)
    ensures r.holder == m.holder
    ensures r.byName.Keys == m.byName.Keys + {b.configuration.name}
    ensures r.byClass.Keys == m.byClass.Keys + {b.configuration.className}
    ensures r.byName[b.configuration.name] == b && r.byClass[b.configuration.className] == b.configuration
    ensures forall n :: n in m.byName && n != b.configuration.name ==> r.byName[n] == m.byName[n]
    ensures forall c :: c in m.byClass && c != b.configuration.className ==> r.byClass[c] == m.byClass[c]
  {
    m.(byName := m.byName[b.configuration.name := b],
       byClass := m.byClass[b.configuration.className := b.configuration])
  }

  /** One step of registration: the configuration's batch is added when it can be
      instantiated quietly; otherwise nothing changes. */
  function RegisterOne(m: Manager, configuration: BatchConfiguration, env: Env): (r: Manager)
    ensures r.holder == m.holder
    ensures configuration.className in m.byClass ==> r == m
    ensures configuration.className !in m.byClass && Create(Some(configuration), m.holder, env).Failure? ==> r == m
    ensures configuration.className !in m.byClass && Create(Some(configuration), m.holder, env).Success? ==>
              r == AddBatch(m, Create(Some(configuration), m.holder, env).value)
  {
    match InstantiateBatchQuietly(m, configuration, env)
    case Some(b) => AddBatch(m, b)
    case None => m
  }

  /** Registering scanned configurations in order (the scan itself is not modelled):
      each is instantiated quietly and added when that succeeds. A class registered
      once is never replaced, and only classes of the given configurations join. */
  function Register(m: Manager, configurations: seq<BatchConfiguration>, env: Env): (r: Manager)
    ensures r.holder == m.holder
    ensures m.byClass.Keys <= r.byClass.Keys
    ensures forall c :: c in r.byClass && c !in m.byClass ==>
              exists i :: 0 <= i < |configurations| && configurations[i].className == c
    ensures forall c :: c in m.byClass ==> r.byClass[c] == m.byClass[c]
    decreases |configurations|
  {
    if |configurations| == 0 then m
    else
      var next := RegisterOne(m, configurations[0], env);
      var r := Register(next, configurations[1..], env);
      assert forall c :: c in r.byClass && c !in m.byClass ==>
               exists i :: 0 <= i < |configurations| && configurations[i].className == c
      by {
        forall c | c in r.byClass && c !in m.byClass
          ensures exists i :: 0 <= i < |configurations| && configurations[i].className == c
        {
          if c in next.byClass {
            assert configurations[0].className == c;
          } else {
            var j :| 0 <= j < |configurations[1..]| && configurations[1..][j].className == c;
            assert configurations[j + 1].className == c;
          }
        }
      }
      r
  }

  lemma AddBatchKeepsRegistry(m: Manager, b: Batch, env: Env)
    requires Registry(m, env)
    requires b.configuration.className !in m.byClass
    requires Rebuildable(b, m.holder, env)
    ensures Registry(AddBatch(m, b), env)
  {
    var r := AddBatch(m, b);
    var name, cls := b.configuration.name, b.configuration.className;
    forall c | c in r.byClass
      ensures r.byClass[c].className == c
    {
      if c != cls {
        assert r.byClass[c] == m.byClass[c];
      }
    }
    forall n | n in r.byName
      ensures Filed(r, n)
    {
      if n != name {
        assert r.byName[n] == m.byName[n];
        assert Filed(m, n);
        assert m.byName[n].configuration.className != cls;
        assert r.byClass[m.byName[n].configuration.className] == m.byClass[m.byName[n].configuration.className];
      }
    }
    forall n | n in r.byName
      ensures Rebuildable(r.byName[n], r.holder, env)
    {
      if n != name {
        assert r.byName[n] == m.byName[n];
      }
    }
  }

  lemma RegisterOneKeepsRegistry(m: Manager, configuration: BatchConfiguration, env: Env)
    requires Registry(m, env)
    ensures Registry(RegisterOne(m, configuration, env), env)
  {
    if configuration.className !in m.byClass && Create(Some(configuration), m.holder, env).Success? {
      var b := Create(Some(configuration), m.holder, env).value;
      assert Rebuildable(b, m.holder, env);
      AddBatchKeepsRegistry(m, b, env);
    }
  }

  /** Registration keeps the registry well formed. */
  lemma {:induction false} RegisterKeepsRegistry(m: Manager, configurations: seq<BatchConfiguration>, env: Env)
    requires Registry(m, env)
    ensures Registry(Register(m, configurations, env), env)
    decreases |configurations|
  {
    if |configurations| > 0 {
      RegisterOneKeepsRegistry(m, configurations[0], env);
      RegisterKeepsRegistry(RegisterOne(m, configurations[0], env), configurations[1..], env);
    }
  }

  /** A creatable configuration of a new class is registered as a new SET batch under its name. */
  lemma RegisterNewClass(m: Manager, configuration: BatchConfiguration, env: Env)
    requires configuration.className !in m.byClass
    requires Create(Some(configuration), m.holder, env).Success?
    ensures var r := Register(m, [configuration], env);
            && configuration.name in r.byName
            && r.byName[configuration.name] == Create(Some(configuration), m.holder, env).value
            && r.byClass[configuration.className] == configuration
  {
    assert [configuration][1..] == [];
  }

  // ---- Lookup ----

  /** `findBatchByName`: an empty or `null` name, and an unknown one, are illegal
      arguments. */
  function FindBatchByName(m: Manager, name: Option<string>): (r: Result<Batch>)
    ensures IsEmpty(name) ==> r == Failure(IllegalArgument(MSG_NAME_EMPTY))
    ensures IsNotEmpty(name) && name.value !in m.byName ==> r == Failure(IllegalArgument(InvalidBatchMessage(name.value)))
    ensures r.Success? <==> IsNotEmpty(name) && name.value in m.byName
    ensures r.Success? ==> r.value == m.byName[name.value]
  {
    if IsEmpty(name) then Failure(IllegalArgument(MSG_NAME_EMPTY))
    else if name.value in m.byName then Success(m.byName[name.value])
    else Failure(IllegalArgument(InvalidBatchMessage(name.value)))
  }

  /** `isBatchRunning`. */
  function IsBatchRunning(m: Manager, name: Option<string>): (r: Result<bool>)
    ensures r.Success? <==> FindBatchByName(m, name).Success?
    ensures r.Success? ==> (r.value <==> m.byName[name.value].state == RUNNING)
  {
    var b :- FindBatchByName(m, name);
    Success(IsRunning(b))
  }

  /** `isBatchStarted`. */
  function IsBatchStarted(m: Manager, name: Option<string>): (r: Result<bool>)
    ensures r.Success? <==> FindBatchByName(m, name).Success?
    ensures r.Success? ==> (r.value <==> IsStarted(m.byName[name.value]))
  {
    var b :- FindBatchByName(m, name);
    Success(IsStarted(b))
  }

  // ---- Operations on one batch ----

  /** Replaces the batch filed under `name`; nothing else changes. */
  function Replace(m: Manager, name: string, b: Batch): (r: Manager)
    requires name in m.byName
    ensures r.byName.Keys == m.byName.Keys && r.byClass == m.byClass && r.holder == m.holder
    ensures r.byName[name] == b
    ensures forall n :: n in m.byName && n != name ==> r.byName[n] == m.byName[n]
  {
    m.(byName := m.byName[name := b])
  }

  /** `removeBatch`: refused while the batch is started or running. Only the name is
      forgotten: its class stays registered. */
  function RemoveBatch(m: Manager, name: Option<string>): (r: Result<Manager>)
    ensures FindBatchByName(m, name).Failure? ==> r == Failure(FindBatchByName(m, name).error)
    ensures FindBatchByName(m, name).Success? && (IsStarted(m.byName[name.value]) || IsRunning(m.byName[name.value])) ==>
              r == Failure(IllegalState(StartedPleaseStopFirstMessage(name.value)))
    ensures FindBatchByName(m, name).Success? && !IsStarted(m.byName[name.value]) && !IsRunning(m.byName[name.value]) ==>
              r.Success?
    ensures r.Success? ==>
              && name.value !in r.value.byName
              && r.value.byName.Keys == m.byName.Keys - {name.value}
              && (forall n :: n in r.value.byName ==> r.value.byName[n] == m.byName[n])
              && r.value.byClass == m.byClass
              && r.value.holder == m.holder
  {
    var b :- FindBatchByName(m, name);
    if IsStarted(b) || IsRunning(b) then Failure(IllegalState(StartedPleaseStopFirstMessage(name.value)))
    else Success(m.(byName := m.byName - {name.value}))
  }

  /** `resetBatch`: refused while the batch is started or running; otherwise the batch
      is rebuilt from the configuration registered for its class. */
  function ResetBatch(m: Manager, name: Option<string>, env: Env): (r: Result<Manager>)
    ensures FindBatchByName(m, name).Failure? ==> r == Failure(FindBatchByName(m, name).error)
    ensures FindBatchByName(m, name).Success? && (IsStarted(m.byName[name.value]) || IsRunning(m.byName[name.value])) ==>
              r == Failure(IllegalState(StartedPleaseStopFirstMessage(name.value)))
    ensures FindBatchByName(m, name).Success? && !IsStarted(m.byName[name.value]) && !IsRunning(m.byName[name.value]) ==>
              var cls := m.byName[name.value].configuration.className;
              var configuration := if cls in m.byClass then Some(m.byClass[cls]) else None;
              && (r.Success? <==> cls in m.byClass && Create(Some(m.byClass[cls]), m.holder, env).Success?)
              && (r.Failure? ==> r == Failure(Create(configuration, m.holder, env).error))
    ensures r.Success? ==>
              var cls := m.byName[name.value].configuration.className;
              && cls in m.byClass
              && Create(Some(m.byClass[cls]), m.holder, env).Success?
              && r.value == AddBatch(m, Create(Some(m.byClass[cls]), m.holder, env).value)
  {
    var b :- FindBatchByName(m, name);
    if IsStarted(b) || IsRunning(b) then Failure(IllegalState(StartedPleaseStopFirstMessage(name.value)))
    else
      var cls := b.configuration.className;
      var configuration := if cls in m.byClass then Some(m.byClass[cls]) else None;
      var rebuilt :- Create(configuration, m.holder, env);
      Success(AddBatch(m, rebuilt))
  }

  /** `startBatch`. */
  function StartBatch(m: Manager, name: Option<string>, now: Instant, env: Env): (r: Result<Manager>)
    ensures FindBatchByName(m, name).Failure? ==> r == Failure(FindBatchByName(m, name).error)
    ensures FindBatchByName(m, name).Success? ==>
              var s := Start(m.byName[name.value], now, env.cron);
              (r.Success? <==> s.Success?) &&
              (s.Failure? ==> r == Failure(s.error)) &&
              (s.Success? ==> r.value == Replace(m, name.value, s.value))
  {
    var b :- FindBatchByName(m, name);
    var started :- Start(b, now, env.cron);
    Success(Replace(m, name.value, started))
  }

  /** `stopBatch`: the stop request reaches the batch even when stopping fails. */
  function StopBatch(m: Manager, name: Option<string>): (r: Effect<Manager>)
    ensures FindBatchByName(m, name).Failure? ==> r == Effect(m, Fail(FindBatchByName(m, name).error))
    ensures FindBatchByName(m, name).Success? ==>
              && r.outcome == Stop(m.byName[name.value]).outcome
              && r.state == Replace(m, name.value, Stop(m.byName[name.value]).state)
  {
    match FindBatchByName(m, name)
    case Failure(e) => Effect(m, Fail(e))
    case Success(b) =>
      var stopped := Stop(b);
      Effect(Replace(m, name.value, stopped.state), stopped.outcome)
  }

  /** `runNow`: a manual run, whose task outcome is a parameter. */
  function RunNow(m: Manager, name: Option<string>, now: Instant, outcome: TaskOutcome, env: Env): (r: Result<Manager>)
    ensures FindBatchByName(m, name).Failure? ==> r == Failure(FindBatchByName(m, name).error)
    ensures FindBatchByName(m, name).Success? ==>
              var ran := Run(m.byName[name.value], true, now, outcome, env.cron);
              (r.Success? <==> ran.Success?) && (ran.Success? ==> r.value == Replace(m, name.value, ran.value))
  {
    var b :- FindBatchByName(m, name);
    var ran :- Run(b, true, now, outcome, env.cron);
    Success(Replace(m, name.value, ran))
  }

  /** A `forEach` over a sorted map whose action may throw: entries are replaced in key
      order by the outcome of their attempt, and the first failing attempt ends the
      loop, leaving it and every later entry untouched. */
  method UpdateInOrder<T>(entries: map<string, T>, attempts: map<string, Result<T>>)
      returns (updated: map<string, T>, outcome: Outcome)
    requires attempts.Keys == entries.Keys
    ensures updated.Keys == entries.Keys
    ensures outcome == Pass ==>
              forall n :: n in entries ==> attempts[n].Success? && updated[n] == attempts[n].value
    ensures outcome.Fail? ==>
              exists f :: f in entries && attempts[f] == Failure(outcome.error) &&
                (forall n :: n in entries && Less(n, f) ==> attempts[n].Success? && updated[n] == attempts[n].value) &&
                (forall n :: n in entries && !Less(n, f) ==> updated[n] == entries[n])
  {
    var remaining := entries.Keys;
    var done: set<string> := {};
    updated := entries;
    while remaining != {}
      invariant remaining !! done && remaining + done == entries.Keys && updated.Keys == entries.Keys
      invariant forall d, x :: d in done && x in remaining ==> Less(d, x)
      invariant forall n :: n in done ==> attempts[n].Success? && updated[n] == attempts[n].value
      invariant forall n :: n in remaining ==> updated[n] == entries[n]
      decreases |remaining|
    {
      LeastExists(remaining);
      var f :| f in remaining && IsLeast(f, remaining);
      if attempts[f].Failure? {
        PartitionAtLeast(entries.Keys, done, remaining, f);
        assert updated[f] == entries[f];
        return updated, Fail(attempts[f].error);
      }
      forall d, x | d in done + {f} && x in remaining - {f}
        ensures Less(d, x)
      {
      }
      updated := updated[f := attempts[f].value];
      done := done + {f};
      remaining := remaining - {f};
    }
    return updated, Pass;
  }

  /** `startAllBatches`: starts the batches in name order; the first failure ends the
      operation, so the batches before it are started and the rest are untouched. */
  method StartAllBatches(m: Manager, now: Instant, env: Env) returns (r: Effect<Manager>)
    ensures r.state.byName.Keys == m.byName.Keys && r.state.byClass == m.byClass && r.state.holder == m.holder
    ensures r.outcome == Pass ==>
              forall n :: n in m.byName ==>
                Start(m.byName[n], now, env.cron).Success? && r.state.byName[n] == Start(m.byName[n], now, env.cron).value
    ensures r.outcome.Fail? ==>
              exists f :: f in m.byName && Start(m.byName[f], now, env.cron) == Failure(r.outcome.error) &&
                (forall n :: n in m.byName && Less(n, f) ==>
                   Start(m.byName[n], now, env.cron).Success? && r.state.byName[n] == Start(m.byName[n], now, env.cron).value) &&
                (forall n :: n in m.byName && !Less(n, f) ==> r.state.byName[n] == m.byName[n])
  {
    var attempts := map n | n in m.byName :: Start(m.byName[n], now, env.cron);
    var updated, outcome := UpdateInOrder(m.byName, attempts);
    r := Effect(m.(byName := updated), outcome);
  }

  /** When the first of the remaining names is reached, the names before it are exactly
      the ones already handled. */
  lemma PartitionAtLeast(keys: set<string>, done: set<string>, remaining: set<string>, f: string)
    requires remaining !! done && remaining + done == keys
    requires forall d, x :: d in done && x in remaining ==> Less(d, x)
    requires IsLeast(f, remaining)
    ensures forall n :: n in keys && Less(n, f) ==> n in done
    ensures forall n :: n in keys && !Less(n, f) ==> n in remaining
  {
    forall n | n in keys && Less(n, f)
      ensures n in done
    {
      if n in remaining {
        Irreflexive(f);
        Asymmetric(n, f);
      }
    }
  }

  // ---- Properties across operations ----

  /** Replacing a batch by one with the same configuration that is at rest keeps the
      registry well formed. */
  lemma ReplaceKeepsRegistry(m: Manager, name: string, b: Batch, env: Env)
    requires Registry(m, env) && name in m.byName
    requires b.configuration == m.byName[name].configuration && Wf(b)
    ensures Registry(Replace(m, name, b), env)
  {
    var r := Replace(m, name, b);
    assert Rebuildable(m.byName[name], m.holder, env);
    forall n | n in r.byName
      ensures Filed(r, n) && Rebuildable(r.byName[n], r.holder, env)
    {
      if n != name {
        assert r.byName[n] == m.byName[n];
        assert Filed(m, n);
      } else {
        assert Filed(m, n);
      }
    }
  }

  /** Starting a batch keeps the registry well formed. */
  lemma StartKeepsRegistry(m: Manager, name: Option<string>, now: Instant, env: Env)
    requires Registry(m, env)
    ensures StartBatch(m, name, now, env).Success? ==> Registry(StartBatch(m, name, now, env).value, env)
  {
    if StartBatch(m, name, now, env).Success? {
      var b := m.byName[name.value];
      assert Rebuildable(b, m.holder, env);
      StartPreservesWf(b, now, env.cron);
      ReplaceKeepsRegistry(m, name.value, Start(b, now, env.cron).value, env);
    }
  }

  /** Stopping a batch keeps the registry well formed, even when it fails. */
  lemma StopKeepsRegistry(m: Manager, name: Option<string>, env: Env)
    requires Registry(m, env)
    ensures Registry(StopBatch(m, name).state, env)
  {
    if FindBatchByName(m, name).Success? {
      var b := m.byName[name.value];
      assert Rebuildable(b, m.holder, env);
      StopPreservesWf(b);
      ReplaceKeepsRegistry(m, name.value, Stop(b).state, env);
    }
  }

  /** Running a batch keeps the registry well formed. */
  lemma RunKeepsRegistry(m: Manager, name: Option<string>, now: Instant, outcome: TaskOutcome, env: Env)
    requires Registry(m, env)
    ensures RunNow(m, name, now, outcome, env).Success? ==> Registry(RunNow(m, name, now, outcome, env).value, env)
  {
    if RunNow(m, name, now, outcome, env).Success? {
      var b := m.byName[name.value];
      assert Rebuildable(b, m.holder, env);
      RunPreservesWf(b, true, now, outcome, env.cron);
      ReplaceKeepsRegistry(m, name.value, Run(b, true, now, outcome, env.cron).value, env);
    }
  }

  /** Removing and resetting keep the registry well formed. */
  lemma RemoveAndResetKeepRegistry(m: Manager, name: Option<string>, env: Env)
    requires Registry(m, env)
    ensures RemoveBatch(m, name).Success? ==> Registry(RemoveBatch(m, name).value, env)
    ensures ResetBatch(m, name, env).Success? ==> Registry(ResetBatch(m, name, env).value, env)
  {
    var r := ResetBatch(m, name, env);
    if r.Success? {
      var b := m.byName[name.value];
      var rebuilt := Create(Some(m.byClass[b.configuration.className]), m.holder, env).value;
      assert rebuilt.configuration == b.configuration;
      forall n | n in r.value.byName
        ensures r.value.byName[n].configuration.name == n
        ensures r.value.byClass[r.value.byName[n].configuration.className] == r.value.byName[n].configuration
      {
        if n != name.value {
          assert r.value.byName[n] == m.byName[n];
        }
      }
    }
  }

  /** In a well formed registry, a manual run of a managed batch always happens. */
  lemma RunNowSucceeds(m: Manager, name: string, now: Instant, outcome: TaskOutcome, env: Env)
    requires Registry(m, env) && name in m.byName && |name| > 0
    ensures RunNow(m, Some(name), now, outcome, env).Success?
    ensures RunNow(m, Some(name), now, outcome, env).value.byName[name].lastRun == Some(now)
  {
    RunPreservesWf(m.byName[name], true, now, outcome, env.cron);
    RunRecordsStatistics(m.byName[name], true, now, outcome, env.cron);
  }

  /** A stopped batch is brought back by a reset: it is SET again, with no stop
      request, and can be started as when it was first built. */
  lemma ResetAfterStop(m: Manager, name: string, now: Instant, env: Env)
    requires Registry(m, env) && name in m.byName && |name| > 0
    ensures var stopped := StopBatch(m, Some(name)).state;
            var reset := ResetBatch(stopped, Some(name), env);
            && reset.Success?
            && reset.value.byName[name].state == SET
            && !reset.value.byName[name].stopRequested
            && (StartBatch(reset.value, Some(name), now, env).Success? <==>
                  (reset.value.byName[name].strategy.Timer? ==> reset.value.byName[name].strategy.timer.interval.duration > 0))
  {
    var stopped := StopBatch(m, Some(name)).state;
    StopKeepsRegistry(m, Some(name), env);
    assert stopped.byName[name].state == STOPPED;
    RemoveAndResetKeepRegistry(stopped, Some(name), env);
    var reset := ResetBatch(stopped, Some(name), env);
    StartPreservesWf(reset.value.byName[name], now, env.cron);
  }

  /** A started batch can be neither removed nor reset. */
  lemma StartedBatchIsPinned(m: Manager, name: string, now: Instant, env: Env)
    requires StartBatch(m, Some(name), now, env).Success?
    ensures var started := StartBatch(m, Some(name), now, env).value;
            && RemoveBatch(started, Some(name)) == Failure(IllegalState(StartedPleaseStopFirstMessage(name)))
            && ResetBatch(started, Some(name), env) == Failure(IllegalState(StartedPleaseStopFirstMessage(name)))
  {
  }

  /** After a removal the name is unknown, and its class stays registered, so scanning
      the same configuration again does not bring the batch back. */
  lemma RemovedStaysRemoved(m: Manager, name: string, env: Env)
    requires Registry(m, env) && name in m.byName && |name| > 0
    requires !IsStarted(m.byName[name]) && !IsRunning(m.byName[name])
    ensures RemoveBatch(m, Some(name)).Success?
    ensures var removed := RemoveBatch(m, Some(name)).value;
            && FindBatchByName(removed, Some(name)) == Failure(IllegalArgument(InvalidBatchMessage(name)))
            && Register(removed, [m.byName[name].configuration], env) == removed
  {
    assert [m.byName[name].configuration][1..] == [];
  }

  /** A managed batch at rest is always reset: the rebuilt batch is SET, carries the
      registered configuration and has forgotten its runs and its stop request. */
  lemma IdleBatchResets(m: Manager, name: string, env: Env)
    requires Registry(m, env) && name in m.byName && |name| > 0
    requires !IsStarted(m.byName[name]) && !IsRunning(m.byName[name])
    ensures ResetBatch(m, Some(name), env).Success?
    ensures var b := ResetBatch(m, Some(name), env).value.byName[name];
            && b.configuration == m.byName[name].configuration
            && b.state == SET && !b.stopRequested
            && b.lastRun.None? && b.history.items == []
  {
    assert Filed(m, name);
    assert Rebuildable(m.byName[name], m.holder, env);
    CreateIsFresh(m.byName[name].configuration, m.holder.value, env);
  }
}
