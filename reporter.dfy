/**
 * The abstract metrics reporter: init() wires the backend, the collectors and the
 * recurring collection job; each run of that job is one tick over the collectors.
 */
module Reporter {
  import opened Samples
  import opened Dispatch

  /** The steps init() takes, in the order it takes them. */
  datatype InitStep = BackendInit | CollectorsAcquired | CollectJobArmed(initialDelayMs: nat, periodMs: nat)

  /** getPeriod(): the period of the collection job in milliseconds. */
  function Period(): (ms: nat)
    ensures ms == 5000
  {
    5000
  }

  /** getInitialDelay(): the delay before the first collection tick in milliseconds. */
  function InitialDelay(): (ms: nat)
    ensures ms == 5000
  {
    5000
  }

  /**
   * A reporter over a backend given by its two register hooks. Besides the source's
   * own fields (the URL and the collector list), it keeps what can be observed of it:
   * the init steps taken, the effects of the ticks so far, and how many throwables
   * the scheduled job has swallowed.
   */
  class MetricsReporter {
    const url: string
    const hooks: Hooks
    var collectors: seq<Collector>
    var initSteps: seq<InitStep>
    var effects: Effects
    var swallowed: nat

    /** A reporter that has not been initialised yet. */
    constructor (url: string, hooks: Hooks)
      ensures this.url == url && this.hooks == hooks
      ensures collectors == [] && initSteps == [] && effects == NoEffects && swallowed == 0
    {
      this.url := url;
      this.hooks := hooks;
      collectors := [];
      initSteps := [];
      effects := NoEffects;
      swallowed := 0;
    }

    /**
     * init(): backend setup, then collector acquisition, then the collection job,
     * armed with the default delay and period. A failing backend setup propagates
     * (ok is false) and nothing after it happens.
     */
    method Init(registry: seq<Collector>, backendInitThrows: bool) returns (ok: bool)
      modifies this`collectors, this`initSteps
      ensures ok == !backendInitThrows
      ensures initSteps == old(initSteps) +
        if ok then [BackendInit, CollectorsAcquired, CollectJobArmed(5000, 5000)] else [BackendInit]
      ensures collectors == if ok then registry else old(collectors)
    {
      ok := DoInit(backendInitThrows);
      if !ok {
        return;
      }
      InitCollectors(registry);
      InitScheduleMetricsCollectSync();
    }

    /** doInit(): the backend's own setup, which may throw. */
    method DoInit(throws: bool) returns (ok: bool)
      modifies this`initSteps
      ensures ok == !throws
      ensures initSteps == old(initSteps) + [BackendInit]
    {
      initSteps := initSteps + [BackendInit];
      ok := !throws;
    }

    /** initCollectors(): takes the registry's collector list as it is. */
    method InitCollectors(registry: seq<Collector>)
      modifies this`collectors, this`initSteps
      ensures collectors == registry
      ensures initSteps == old(initSteps) + [CollectorsAcquired]
    {
      collectors := registry;
      initSteps := initSteps + [CollectorsAcquired];
    }

    /** initScheduleMetricsCollectSync(): arms the recurring job that runs Run. */
    method InitScheduleMetricsCollectSync()
      modifies this`initSteps
      ensures initSteps == old(initSteps) + [CollectJobArmed(5000, 5000)]
    {
      initSteps := initSteps + [CollectJobArmed(InitialDelay(), Period())];
    }

    /**
     * The body of the scheduled job: one tick, with anything that escapes it
     * swallowed, so the job keeps running and the next tick starts afresh. Only
     * the armed collection job calls it.
     */
    method Run()
      requires CollectJobArmed(InitialDelay(), Period()) in initSteps
      modifies this`effects, this`swallowed
      ensures effects == Tick(hooks, collectors, old(effects)).effects
      ensures swallowed == old(swallowed) + if Tick(hooks, collectors, old(effects)).aborted then 1 else 0
    {
      var aborted := UpdateMetricsData();
      if aborted {
        swallowed := swallowed + 1;
      }
    }

    /**
     * updateMetricsData(): for each collector in order, skip it unless it reports
     * updates, otherwise export its samples and register each of them. An exception
     * from isSamplesUpdated() or export(), or an Error from a hook, leaves both loops
     * (aborted is true).
     */
    method UpdateMetricsData() returns (aborted: bool)
      modifies this`effects
      ensures Tick(hooks, collectors, old(effects)) == TickResult(effects, aborted)
    {
      var i := 0;
      while i < |collectors|
        invariant i <= |collectors|
        invariant TickPrefix(hooks, collectors, i, old(effects)) == TickResult(effects, false)
      {
        var c := collectors[i];
        TickStep(hooks, collectors, i, old(effects), effects);
        if c.updated.Throws? {
          AbortSticks(hooks, collectors, i + 1, |collectors|, old(effects));
          return true;
        }
        if c.updated.value {
          effects := effects.(exportCalls := effects.exportCalls + [i]);
          if c.exported.Throws? {
            AbortSticks(hooks, collectors, i + 1, |collectors|, old(effects));
            return true;
          }
          ghost var before := effects;
          var escaped := RegisterBatch(c.exported.value);
          if escaped {
            AbortSticks(hooks, collectors, i + 1, |collectors|, old(effects));
            return true;
          }
        }
        i := i + 1;
      }
      return false;
    }

    /**
     * The inner loop of updateMetricsData(): registerSample on every sample of an
     * export batch in order, until a hook Error escapes (escaped is true).
     */
    method RegisterBatch(batch: seq<Sample>) returns (escaped: bool)
      modifies this`effects
      ensures AfterBatch(hooks, old(effects), batch) == TickResult(effects, escaped)
    {
      var j := 0;
      while j < |batch|
        invariant j <= |batch|
        invariant AfterBatch(hooks, old(effects), batch[..j]) == TickResult(effects, false)
      {
        escaped := RegisterSample(batch[j]);
        assert batch[..j + 1][..j] == batch[..j];
        if escaped {
          BatchAbortSticks(hooks, old(effects), batch, j + 1);
          return;
        }
        j := j + 1;
      }
      assert batch[..|batch|] == batch;
      escaped := false;
    }

    /**
     * registerSample(): the switch on the sample type, inside a try/catch of
     * Exception that logs and drops what a hook throws. A sample without a type
     * makes the switch itself throw, which the same catch logs. A hook Error is not
     * an Exception: it escapes (escaped is true).
     */
    method RegisterSample(s: Sample) returns (escaped: bool)
      modifies this`effects
      ensures AfterSample(hooks, old(effects), s) == TickResult(effects, escaped)
    {
      effects := effects.(registered := effects.registered + [s]);
      escaped := false;
      match s.kind {
        case None =>
          effects := effects.(errors := effects.errors + 1);
        case Some(Gauge) =>
          var end := RegisterGaugeSample(s);
          if end == ThrowsException {
            effects := effects.(errors := effects.errors + 1);
          }
          escaped := end == ThrowsError;
        case Some(Counter) =>
          var end := RegisterCounterSample(s);
          if end == ThrowsException {
            effects := effects.(errors := effects.errors + 1);
          }
          escaped := end == ThrowsError;
        case Some(Unsupported(_)) =>
          effects := effects.(warnings := effects.warnings + 1);
      }
    }

    /** registerGaugeSample(): the backend's gauge hook; end says how the call ended. */
    method RegisterGaugeSample(s: Sample) returns (end: HookEnd)
      modifies this`effects
      ensures var hr := hooks.gauge(old(effects).backend, s);
              && effects == old(effects).(backend := hr.backend, hookCalls := old(effects).hookCalls + [GaugeHook(s)])
              && end == hr.end
    {
      var hr := hooks.gauge(effects.backend, s);
      effects := effects.(backend := hr.backend, hookCalls := effects.hookCalls + [GaugeHook(s)]);
      end := hr.end;
    }

    /** registerCounterSample(): the backend's counter hook; end says how the call ended. */
    method RegisterCounterSample(s: Sample) returns (end: HookEnd)
      modifies this`effects
      ensures var hr := hooks.counter(old(effects).backend, s);
              && effects == old(effects).(backend := hr.backend, hookCalls := old(effects).hookCalls + [CounterHook(s)])
              && end == hr.end
    {
      var hr := hooks.counter(effects.backend, s);
      effects := effects.(backend := hr.backend, hookCalls := effects.hookCalls + [CounterHook(s)]);
      end := hr.end;
    }
  }
}
