/**
 * The collection tick of the reporter as functions on an explicit observable state:
 * what registerSample does with one sample, what a collector's turn in the tick does,
 * and what a whole tick does, with the properties the tick guarantees.
 */
module Dispatch {
  import opened Samples

  /** Backend state of a reporter: metric values keyed by sample name. */
  type Backend = map<string, int>

  /**
   * How a register hook's call ended: normally, with an Exception, which the catch
   * in registerSample takes, or with an Error, which that catch does not take.
   */
  datatype HookEnd = Completes | ThrowsException | ThrowsError

  /** What a register hook did: the backend it left behind, and how it ended. */
  datatype HookResult = HookResult(backend: Backend, end: HookEnd)

  /** The two hooks a concrete reporter supplies; either may fail on any call. */
  datatype Hooks = Hooks(gauge: (Backend, Sample) -> HookResult, counter: (Backend, Sample) -> HookResult)

  /** One call of a register hook. */
  datatype HookCall = GaugeHook(sample: Sample) | CounterHook(sample: Sample)

  /**
   * A registered collector as seen by one tick: what isSamplesUpdated() does,
   * and what export() does if it is called.
   */
  datatype Collector = Collector(updated: Outcome<bool>, exported: Outcome<seq<Sample>>)

  /**
   * Everything a tick can be observed to do: the backend, the samples handed to
   * registerSample, the hook calls, the indices of the collectors whose export()
   * was called, and the warnings and errors logged.
   */
  datatype Effects = Effects(
    backend: Backend,
    registered: seq<Sample>,
    hookCalls: seq<HookCall>,
    exportCalls: seq<nat>,
    warnings: nat,
    errors: nat)

  /**
   * The state after registering a sample, a batch or a whole tick: its effects,
   * and whether a throwable escaped it.
   */
  datatype TickResult = TickResult(effects: Effects, aborted: bool)

  const NoEffects := Effects(map[], [], [], [], 0, 0)

  // ---------------------------------------------------------------------------
  // Reference definitions

  /** The hook calls a sample should cause: one to the hook of its own type, none otherwise. */
  function Route(s: Sample): (r: seq<HookCall>)
    ensures |r| <= 1
    ensures forall c :: c in r ==> c.sample == s
    ensures GaugeHook(s) in r <==> s.kind == Some(Gauge)
    ensures CounterHook(s) in r <==> s.kind == Some(Counter)
    ensures r == [] <==> s.kind.None? || s.kind.value.Unsupported?
  {
    match s.kind
    case Some(Gauge) => [GaugeHook(s)]
    case Some(Counter) => [CounterHook(s)]
    case _ => []
  }

  /** The hook calls a batch should cause, in batch order. */
  function Routed(batch: seq<Sample>): (r: seq<HookCall>)
    ensures |r| <= |batch|
  {
    if batch == [] then [] else Routed(batch[..|batch| - 1]) + Route(batch[|batch| - 1])
  }

  /**
   * Routing sends a gauge sample to the gauge hook only, a counter sample to the
   * counter hook only, and calls no hook for anything else.
   */
  lemma {:induction false} RoutedOnlyToMatchingHook(batch: seq<Sample>)
    ensures forall k :: 0 <= k < |Routed(batch)| ==> Routed(batch)[k].sample in batch
    ensures forall k :: 0 <= k < |Routed(batch)| ==>
      (Routed(batch)[k].GaugeHook? ==> Routed(batch)[k].sample.kind == Some(Gauge)) &&
      (Routed(batch)[k].CounterHook? ==> Routed(batch)[k].sample.kind == Some(Counter))
    ensures forall s :: s in batch && s.kind == Some(Gauge) ==> GaugeHook(s) in Routed(batch)
    ensures forall s :: s in batch && s.kind == Some(Counter) ==> CounterHook(s) in Routed(batch)
  {
    if batch != [] {
      var init, last := batch[..|batch| - 1], batch[|batch| - 1];
      RoutedOnlyToMatchingHook(init);
      assert batch == init + [last];
      var r := Routed(batch);
      assert r == Routed(init) + Route(last);
      forall k | 0 <= k < |r| ensures r[k].sample in batch {
        if k < |Routed(init)| {
          assert r[k] == Routed(init)[k];
        }
      }
    }
  }

  /** How many samples of a batch carry a type the switch does not handle. */
  function CountUnsupported(batch: seq<Sample>): nat {
    if batch == [] then 0
    else CountUnsupported(batch[..|batch| - 1]) + (if IsUnsupported(batch[|batch| - 1]) then 1 else 0)
  }

  predicate IsUnsupported(s: Sample) {
    s.kind.Some? && s.kind.value.Unsupported?
  }

  /** Whether registering s on backend b ends in a hook Error, which escapes registerSample. */
  predicate Escapes(h: Hooks, b: Backend, s: Sample) {
    match s.kind
    case Some(Gauge) => h.gauge(b, s).end == ThrowsError
    case Some(Counter) => h.counter(b, s).end == ThrowsError
    case _ => false
  }

  /** Hooks that fail, if they fail at all, only with an Exception and never with an Error. */
  ghost predicate NoHookErrors(h: Hooks) {
    && (forall b, s :: h.gauge(b, s).end != ThrowsError)
    && (forall b, s :: h.counter(b, s).end != ThrowsError)
  }

  /** Whether a collector's turn throws out of the tick by itself. */
  predicate Faults(c: Collector) {
    c.updated.Throws? || (c.updated == Returns(true) && c.exported.Throws?)
  }

  /** The samples a collector hands on: its export batch if it is updated and exports, otherwise none. */
  function Contribution(c: Collector): seq<Sample> {
    if c.updated == Returns(true) && c.exported.Returns? then c.exported.value else []
  }

  /** The export batches of the first n collectors, concatenated in registry order. */
  function Batches(cs: seq<Collector>, n: nat): seq<Sample>
    requires n <= |cs|
  {
    if n == 0 then [] else Batches(cs, n - 1) + Contribution(cs[n - 1])
  }

  /** The position of the first of the first n collectors that faults, or n if none does. */
  function FirstFault(cs: seq<Collector>, n: nat): (f: nat)
    requires n <= |cs|
    ensures f <= n
    ensures forall k :: 0 <= k < f ==> !Faults(cs[k])
    ensures f < n ==> Faults(cs[f])
  {
    if n == 0 then 0
    else
      var f := FirstFault(cs, n - 1);
      if f < n - 1 then f
      else if Faults(cs[n - 1]) then n - 1
      else n
  }

  /** How many of the first n collectors the tick reaches: up to and including the first fault. */
  function Reached(cs: seq<Collector>, n: nat): (m: nat)
    requires n <= |cs|
    ensures m <= n
  {
    var f := FirstFault(cs, n);
    if f < n then f + 1 else n
  }

  /** The positions below n whose collector reports updates, in increasing order. */
  function UpdatedBelow(cs: seq<Collector>, n: nat): seq<nat>
    requires n <= |cs|
  {
    if n == 0 then [] else UpdatedBelow(cs, n - 1) + (if cs[n - 1].updated == Returns(true) then [n - 1] else [])
  }

  /** UpdatedBelow lists exactly the updated collectors below n, in registry order. */
  lemma {:induction false} UpdatedBelowMeaning(cs: seq<Collector>, n: nat)
    requires n <= |cs|
    ensures forall x :: x in UpdatedBelow(cs, n) ==> x < n && cs[x].updated == Returns(true)
    ensures forall k :: 0 <= k < n && cs[k].updated == Returns(true) ==> k in UpdatedBelow(cs, n)
    ensures forall i, j :: 0 <= i < j < |UpdatedBelow(cs, n)| ==> UpdatedBelow(cs, n)[i] < UpdatedBelow(cs, n)[j]
  {
    if n > 0 {
      UpdatedBelowMeaning(cs, n - 1);
      var prev := UpdatedBelow(cs, n - 1);
      assert forall i :: 0 <= i < |prev| ==> prev[i] in prev;
    }
  }

  // ---------------------------------------------------------------------------
  // The operations

  /**
   * A hook's result applied to the state: its backend, one error logged if it
   * threw an Exception, and an escape if it threw an Error.
   */
  function ApplyHook(e: Effects, hr: HookResult): TickResult {
    TickResult(e.(backend := hr.backend, errors := e.errors + if hr.end == ThrowsException then 1 else 0),
               hr.end == ThrowsError)
  }

  /**
   * registerSample: the switch on the sample type inside a try/catch of Exception.
   * A sample without a type makes the switch throw, which the catch logs as an
   * error; a hook Error passes the catch and escapes.
   */
  function AfterSample(h: Hooks, e: Effects, s: Sample): (r: TickResult)
    ensures r.effects.registered == e.registered + [s]
    ensures r.effects.hookCalls == e.hookCalls + Route(s)
    ensures r.effects.exportCalls == e.exportCalls
    ensures r.effects.warnings == e.warnings + if IsUnsupported(s) then 1 else 0
    ensures s.kind == Some(Gauge) ==> r.effects.backend == h.gauge(e.backend, s).backend
    ensures s.kind == Some(Counter) ==> r.effects.backend == h.counter(e.backend, s).backend
    ensures Route(s) == [] ==> r.effects.backend == e.backend
    ensures r.aborted == Escapes(h, e.backend, s)
    ensures r.effects.errors == e.errors + (match s.kind
                                    case None => 1
                                    case Some(Gauge) => if h.gauge(e.backend, s).end == ThrowsException then 1 else 0
                                    case Some(Counter) => if h.counter(e.backend, s).end == ThrowsException then 1 else 0
                                    case Some(Unsupported(_)) => 0)
  {
    var e1 := e.(registered := e.registered + [s]);
    match s.kind
    case None => TickResult(e1.(errors := e1.errors + 1), false)
    case Some(Gauge) => ApplyHook(e1.(hookCalls := e1.hookCalls + [GaugeHook(s)]), h.gauge(e.backend, s))
    case Some(Counter) => ApplyHook(e1.(hookCalls := e1.hookCalls + [CounterHook(s)]), h.counter(e.backend, s))
    case Some(Unsupported(_)) => TickResult(e1.(warnings := e1.warnings + 1), false)
  }

  /**
   * The inner loop of the tick: registerSample on the samples of a batch in order,
   * until a hook Error escapes. It never touches the export log.
   */
  function AfterBatch(h: Hooks, e: Effects, batch: seq<Sample>): (r: TickResult)
    ensures r.effects.exportCalls == e.exportCalls
  {
    if batch == [] then TickResult(e, false)
    else
      var prev := AfterBatch(h, e, batch[..|batch| - 1]);
      if prev.aborted then prev else AfterSample(h, prev.effects, batch[|batch| - 1])
  }

  /**
   * What the inner loop registers: a prefix of the batch, the whole batch unless a
   * hook Error escaped; the hook calls and the warnings are exactly those of the
   * samples handled.
   */
  lemma {:induction false} AfterBatchHandled(h: Hooks, e: Effects, batch: seq<Sample>)
    ensures var r := AfterBatch(h, e, batch);
            && e.registered <= r.effects.registered <= e.registered + batch
            && r.effects.hookCalls == e.hookCalls + Routed(r.effects.registered[|e.registered|..])
            && r.effects.warnings == e.warnings + CountUnsupported(r.effects.registered[|e.registered|..])
            && (!r.aborted ==> r.effects.registered == e.registered + batch)
  {
    if batch != [] {
      var init, last := batch[..|batch| - 1], batch[|batch| - 1];
      AfterBatchHandled(h, e, init);
      var prev := AfterBatch(h, e, init);
      assert batch == init + [last];
      if prev.aborted {
        PrefixExtend(e.registered, init, batch, prev.effects.registered);
      } else {
        var r := AfterSample(h, prev.effects, last);
        HandledStep(e, prev.effects, r.effects, init, last);
      }
    }
  }

  /** Registering one more sample extends what the samples handled so far account for. */
  lemma HandledStep(e: Effects, p: Effects, r: Effects, init: seq<Sample>, last: Sample)
    requires p.registered == e.registered + init
    requires p.hookCalls == e.hookCalls + Routed(init)
    requires p.warnings == e.warnings + CountUnsupported(init)
    requires r.registered == p.registered + [last]
    requires r.hookCalls == p.hookCalls + Route(last)
    requires r.warnings == p.warnings + if IsUnsupported(last) then 1 else 0
    ensures r.registered == e.registered + (init + [last])
    ensures r.registered[|e.registered|..] == init + [last]
    ensures r.hookCalls == e.hookCalls + Routed(init + [last])
    ensures r.warnings == e.warnings + CountUnsupported(init + [last])
  {
    var b := init + [last];
    assert b[..|b| - 1] == init;
    AppendAssoc(e.registered, init, [last]);
    AppendAssoc(e.hookCalls, Routed(init), Route(last));
  }

  /** A prefix of a + x is a prefix of a + y when x is a prefix of y. */
  lemma PrefixExtend<T>(a: seq<T>, x: seq<T>, y: seq<T>, p: seq<T>)
    requires x <= y && p <= a + x
    ensures p <= a + y
  {
    assert a + x == (a + y)[..|a + x|];
  }

  /**
   * When the inner loop aborts: only when a hook threw an Error, on the last sample
   * registered, which went to a hook. The error count never decreases.
   */
  lemma {:induction false} AfterBatchEscape(h: Hooks, e: Effects, batch: seq<Sample>)
    ensures var r := AfterBatch(h, e, batch);
            && r.effects.errors >= e.errors
            && (r.aborted ==> |e.registered| < |r.effects.registered| &&
                              Route(r.effects.registered[|r.effects.registered| - 1]) != [])
            && (r.aborted ==> exists b {:trigger Escapes(h, b, r.effects.registered[|r.effects.registered| - 1])} :: Escapes(h, b, r.effects.registered[|r.effects.registered| - 1]))
  {
    if batch != [] {
      var init, last := batch[..|batch| - 1], batch[|batch| - 1];
      AfterBatchEscape(h, e, init);
      AfterBatchHandled(h, e, init);
      var prev := AfterBatch(h, e, init);
      if !prev.aborted && AfterSample(h, prev.effects, last).aborted {
        assert Escapes(h, prev.effects.backend, last);
      }
    }
  }

  /** Hooks that never throw an Error, or a batch that calls no hook, let the whole batch through. */
  lemma {:induction false} AfterBatchNoEscape(h: Hooks, e: Effects, batch: seq<Sample>)
    ensures NoHookErrors(h) ==> !AfterBatch(h, e, batch).aborted
    ensures (forall s :: s in batch ==> Route(s) == []) ==>
              !AfterBatch(h, e, batch).aborted && AfterBatch(h, e, batch).effects.backend == e.backend
  {
    if batch != [] {
      var init, last := batch[..|batch| - 1], batch[|batch| - 1];
      AfterBatchNoEscape(h, e, init);
      assert last in batch;
      assert forall s :: s in init ==> s in batch;
    }
  }

  /** One collector's turn in the tick (the body of the outer loop), at position k. */
  function AfterCollector(h: Hooks, e: Effects, c: Collector, k: nat): (r: TickResult)
    ensures e.registered <= r.effects.registered
    ensures e.hookCalls <= r.effects.hookCalls
    ensures r.effects.exportCalls == e.exportCalls + if c.updated == Returns(true) then [k] else []
    ensures c.updated != Returns(true) ==> r == TickResult(e, Faults(c))
  {
    match c.updated
    case Throws => TickResult(e, true)
    case Returns(updated) =>
      if !updated then TickResult(e, false)
      else
        var e1 := e.(exportCalls := e.exportCalls + [k]);
        match c.exported
        case Throws => TickResult(e1, true)
        case Returns(batch) =>
          AfterBatchHandled(h, e1, batch);
          AfterBatch(h, e1, batch)
  }

  /**
   * The tick over the first n collectors: it stops at the first collector that
   * throws, or at the first hook Error. It only ever appends to the logs.
   */
  function TickPrefix(h: Hooks, cs: seq<Collector>, n: nat, e: Effects): (r: TickResult)
    requires n <= |cs|
    ensures e.registered <= r.effects.registered
    ensures e.hookCalls <= r.effects.hookCalls
    ensures e.exportCalls <= r.effects.exportCalls
  {
    if n == 0 then TickResult(e, false)
    else
      var r := TickPrefix(h, cs, n - 1, e);
      if r.aborted then r else AfterCollector(h, r.effects, cs[n - 1], n - 1)
  }

  /** updateMetricsData: one pass over the whole collector list, which only appends to the logs. */
  function Tick(h: Hooks, cs: seq<Collector>, e: Effects): (r: TickResult)
    ensures e.registered <= r.effects.registered
    ensures e.hookCalls <= r.effects.hookCalls
    ensures e.exportCalls <= r.effects.exportCalls
  {
    TickPrefix(h, cs, |cs|, e)
  }

  // ---------------------------------------------------------------------------
  // Properties of the tick

  /**
   * One collector's turn: a collector that faults throws out of the tick before
   * registering anything; otherwise it registers a prefix of its contribution, all
   * of it unless a hook Error escaped, with the hook calls and warnings of the whole
   * contribution in that case. Without hook Errors it throws exactly when it faults.
   */
  lemma AfterCollectorMeaning(h: Hooks, e: Effects, c: Collector, k: nat)
    ensures var r := AfterCollector(h, e, c, k);
            && (Faults(c) ==> && r.aborted && r.effects.registered == e.registered
                                 && r.effects.hookCalls == e.hookCalls && r.effects.warnings == e.warnings)
            && r.effects.registered <= e.registered + Contribution(c)
            && (!r.aborted ==>
                  && r.effects.registered == e.registered + Contribution(c)
                  && r.effects.hookCalls == e.hookCalls + Routed(Contribution(c))
                  && r.effects.warnings == e.warnings + CountUnsupported(Contribution(c)))
            && (NoHookErrors(h) ==> r.aborted == Faults(c))
  {
    if c.updated == Returns(true) && c.exported.Returns? {
      var e1 := e.(exportCalls := e.exportCalls + [k]);
      AfterBatchHandled(h, e1, c.exported.value);
      AfterBatchNoEscape(h, e1, c.exported.value);
      assert (e.registered + c.exported.value)[|e.registered|..] == c.exported.value;
    }
  }

  lemma AppendAssoc<T>(a: seq<T>, b: seq<T>, c: seq<T>)
    ensures (a + b) + c == a + (b + c)
  {
  }

  /** Routing a concatenation routes each part in turn. */
  lemma {:induction false} RoutedAppend(a: seq<Sample>, b: seq<Sample>)
    ensures Routed(a + b) == Routed(a) + Routed(b)
  {
    if b != [] {
      assert (a + b)[..|a + b| - 1] == a + b[..|b| - 1];
      RoutedAppend(a, b[..|b| - 1]);
    } else {
      assert a + b == a;
    }
  }

  lemma {:induction false} CountUnsupportedAppend(a: seq<Sample>, b: seq<Sample>)
    ensures CountUnsupported(a + b) == CountUnsupported(a) + CountUnsupported(b)
  {
    if b != [] {
      assert (a + b)[..|a + b| - 1] == a + b[..|b| - 1];
      CountUnsupportedAppend(a, b[..|b| - 1]);
    } else {
      assert a + b == a;
    }
  }

  lemma PrefixGrow<T>(p: seq<T>, a: seq<T>, b: seq<T>)
    requires p <= a
    ensures p <= a + b
  {
    assert (a + b)[..|a|] == a;
  }

  /** The elements a log gained, when it lies between e and e + u, all come from u. */
  lemma PrefixElements<T>(e: seq<T>, log: seq<T>, u: seq<T>)
    requires e <= log <= e + u
    ensures forall x :: x in log[|e|..] ==> x in u
  {
    forall x | x in log[|e|..] ensures x in u {
      var i :| 0 <= i < |log| - |e| && log[|e|..][i] == x;
      assert log[|e| + i] == (e + u)[|e| + i];
    }
  }

  /** Later collectors see more of the export batches. */
  lemma {:induction false} BatchesGrow(cs: seq<Collector>, a: nat, b: nat)
    requires a <= b <= |cs|
    ensures Batches(cs, a) <= Batches(cs, b)
  {
    if a < b {
      BatchesGrow(cs, a, b - 1);
      PrefixGrow(Batches(cs, a), Batches(cs, b - 1), Contribution(cs[b - 1]));
    }
  }

  lemma {:induction false} UpdatedBelowGrow(cs: seq<Collector>, a: nat, b: nat)
    requires a <= b <= |cs|
    ensures UpdatedBelow(cs, a) <= UpdatedBelow(cs, b)
  {
    if a < b {
      UpdatedBelowGrow(cs, a, b - 1);
      PrefixGrow(UpdatedBelow(cs, a), UpdatedBelow(cs, b - 1),
        if cs[b - 1].updated == Returns(true) then [b - 1] else []);
    }
  }

  /** Once a hook Error has left the inner loop, the rest of the batch changes nothing. */
  lemma {:induction false} BatchAbortSticks(h: Hooks, e: Effects, batch: seq<Sample>, j: nat)
    requires j <= |batch|
    requires AfterBatch(h, e, batch[..j]).aborted
    ensures AfterBatch(h, e, batch) == AfterBatch(h, e, batch[..j])
  {
    if j < |batch| {
      var init := batch[..|batch| - 1];
      assert init[..j] == batch[..j];
      BatchAbortSticks(h, e, init, j);
    } else {
      assert batch[..j] == batch;
    }
  }

  /** The tick over n + 1 collectors is the tick over n followed by collector n's turn. */
  lemma TickStep(h: Hooks, cs: seq<Collector>, n: nat, e: Effects, mid: Effects)
    requires n < |cs| && TickPrefix(h, cs, n, e) == TickResult(mid, false)
    ensures cs[n].updated.Throws? ==> TickPrefix(h, cs, n + 1, e) == TickResult(mid, true)
    ensures cs[n].updated == Returns(false) ==> TickPrefix(h, cs, n + 1, e) == TickResult(mid, false)
    ensures cs[n].updated == Returns(true) && cs[n].exported.Throws? ==>
              TickPrefix(h, cs, n + 1, e) == TickResult(mid.(exportCalls := mid.exportCalls + [n]), true)
    ensures cs[n].updated == Returns(true) && cs[n].exported.Returns? ==>
              TickPrefix(h, cs, n + 1, e) == AfterBatch(h, mid.(exportCalls := mid.exportCalls + [n]), cs[n].exported.value)
  {
  }

  /** Once the tick has aborted, later collectors change nothing. */
  lemma {:induction false} AbortSticks(h: Hooks, cs: seq<Collector>, n: nat, m: nat, e: Effects)
    requires n <= m <= |cs|
    requires TickPrefix(h, cs, n, e).aborted
    ensures TickPrefix(h, cs, m, e) == TickPrefix(h, cs, n, e)
  {
    if m > n {
      AbortSticks(h, cs, n, m - 1, e);
    }
  }

  /**
   * What the first n collectors of a tick do, whatever the hooks do: a faulting
   * collector among them aborts the tick; the samples registered are a prefix of the
   * export batches, in registry order, of the collectors before the first fault, and
   * the export calls a prefix of the updated positions up to and including it. A tick
   * that does not abort has registered every batch, with its routing and warnings,
   * and called export() on every updated collector.
   */
  lemma {:induction false} TickPrefixBounds(h: Hooks, cs: seq<Collector>, n: nat, e: Effects)
    requires n <= |cs|
    ensures var r := TickPrefix(h, cs, n, e);
            var f := FirstFault(cs, n);
            && (f < n ==> r.aborted)
            && r.effects.registered <= e.registered + Batches(cs, f)
            && r.effects.exportCalls <= e.exportCalls + UpdatedBelow(cs, Reached(cs, n))
            && (!r.aborted ==>
                 && r.effects.registered == e.registered + Batches(cs, n)
                 && r.effects.hookCalls == e.hookCalls + Routed(Batches(cs, n))
                 && r.effects.warnings == e.warnings + CountUnsupported(Batches(cs, n))
                 && r.effects.exportCalls == e.exportCalls + UpdatedBelow(cs, n))
  {
    if n > 0 {
      TickPrefixBounds(h, cs, n - 1, e);
      var prev := TickPrefix(h, cs, n - 1, e);
      if prev.aborted {
        AbortedBounds(h, cs, n, e);
      } else {
        var r := TickPrefix(h, cs, n, e);
        assert r == AfterCollector(h, prev.effects, cs[n - 1], n - 1);
        AfterCollectorMeaning(h, prev.effects, cs[n - 1], n - 1);
        LiveBoundsSamples(cs, n, e, prev.effects, r);
        LiveExports(h, cs, n, e, prev.effects);
      }
    }
  }

  /**
   * Between the effects e and the later effects r, the hook calls added are exactly
   * the routes of the samples registered in between, in order, and the warnings
   * added exactly the number of unsupported ones among them.
   */
  ghost predicate RoutesMatch(e: Effects, r: Effects) {
    && e.registered <= r.registered
    && r.hookCalls == e.hookCalls + Routed(r.registered[|e.registered|..])
    && r.warnings == e.warnings + CountUnsupported(r.registered[|e.registered|..])
  }

  /** Whether or not the tick aborts, its hook calls and warnings match the samples it registered. */
  lemma {:induction false} TickPrefixRouting(h: Hooks, cs: seq<Collector>, n: nat, e: Effects)
    requires n <= |cs|
    ensures RoutesMatch(e, TickPrefix(h, cs, n, e).effects)
  {
    if n == 0 {
      assert e.registered[|e.registered|..] == [];
    } else {
      TickPrefixRouting(h, cs, n - 1, e);
      TickRoutingStep(h, cs, n, e);
    }
  }

  /** The match over the first n - 1 collectors' turns extends to the n-th. */
  lemma TickRoutingStep(h: Hooks, cs: seq<Collector>, n: nat, e: Effects)
    requires 0 < n <= |cs|
    requires RoutesMatch(e, TickPrefix(h, cs, n - 1, e).effects)
    ensures RoutesMatch(e, TickPrefix(h, cs, n, e).effects)
  {
      RoutingTick(h, e, TickPrefix(h, cs, n - 1, e), cs[n - 1], n - 1, TickPrefix(h, cs, n, e));
  }

  /** One more collector's turn, or none after an abort, keeps the match. */
  lemma RoutingTick(h: Hooks, e: Effects, prev: TickResult, c: Collector, k: nat, r: TickResult)
    requires RoutesMatch(e, prev.effects)
    requires r == if prev.aborted then prev else AfterCollector(h, prev.effects, c, k)
    ensures RoutesMatch(e, r.effects)
  {
    if !prev.aborted {
      AfterCollectorRouting(h, prev.effects, c, k);
      RoutingStep(e, prev.effects, r.effects);
    }
  }

  /** One collector's turn calls exactly the hooks of the samples it registers, and warns for exactly those. */
  lemma AfterCollectorRouting(h: Hooks, e: Effects, c: Collector, k: nat)
    ensures RoutesMatch(e, AfterCollector(h, e, c, k).effects)
  {
    if c.updated == Returns(true) && c.exported.Returns? {
      AfterBatchHandled(h, e.(exportCalls := e.exportCalls + [k]), c.exported.value);
    } else {
      assert e.registered[|e.registered|..] == [];
    }
  }

  /** Matching over two consecutive stretches is matching over both. */
  lemma RoutingStep(e: Effects, p: Effects, r: Effects)
    requires RoutesMatch(e, p) && RoutesMatch(p, r)
    ensures RoutesMatch(e, r)
  {
    var a, b := p.registered[|e.registered|..], r.registered[|p.registered|..];
    assert r.registered[|e.registered|..] == a + b;
    RoutedAppend(a, b);
    CountUnsupportedAppend(a, b);
    AppendAssoc(e.hookCalls, Routed(a), Routed(b));
  }

  /** The inductive step of TickPrefixBounds once the tick has aborted before collector n - 1. */
  lemma AbortedBounds(h: Hooks, cs: seq<Collector>, n: nat, e: Effects)
    requires 0 < n <= |cs|
    requires TickPrefix(h, cs, n - 1, e).aborted
    requires TickPrefix(h, cs, n - 1, e).effects.registered <= e.registered + Batches(cs, FirstFault(cs, n - 1))
    requires TickPrefix(h, cs, n - 1, e).effects.exportCalls <= e.exportCalls + UpdatedBelow(cs, Reached(cs, n - 1))
    ensures TickPrefix(h, cs, n, e).effects.registered <= e.registered + Batches(cs, FirstFault(cs, n))
    ensures TickPrefix(h, cs, n, e).effects.exportCalls <= e.exportCalls + UpdatedBelow(cs, Reached(cs, n))
  {
    var prev := TickPrefix(h, cs, n - 1, e);
    assert TickPrefix(h, cs, n, e) == prev;
    BatchesGrow(cs, FirstFault(cs, n - 1), FirstFault(cs, n));
    UpdatedBelowGrow(cs, Reached(cs, n - 1), Reached(cs, n));
    PrefixExtend(e.registered, Batches(cs, FirstFault(cs, n - 1)), Batches(cs, FirstFault(cs, n)), prev.effects.registered);
    PrefixExtend(e.exportCalls, UpdatedBelow(cs, Reached(cs, n - 1)), UpdatedBelow(cs, Reached(cs, n)), prev.effects.exportCalls);
  }

  /** The samples part of the inductive step of TickPrefixBounds when the first n - 1 collectors did not abort. */
  lemma LiveBoundsSamples(cs: seq<Collector>, n: nat, e: Effects, mid: Effects, r: TickResult)
    requires 0 < n <= |cs|
    requires FirstFault(cs, n - 1) == n - 1
    requires mid.registered == e.registered + Batches(cs, n - 1)
    requires mid.hookCalls == e.hookCalls + Routed(Batches(cs, n - 1))
    requires mid.warnings == e.warnings + CountUnsupported(Batches(cs, n - 1))
    requires Faults(cs[n - 1]) ==> r.aborted && r.effects.registered == mid.registered
    requires r.effects.registered <= mid.registered + Contribution(cs[n - 1])
    requires !r.aborted ==>
               && r.effects.registered == mid.registered + Contribution(cs[n - 1])
               && r.effects.hookCalls == mid.hookCalls + Routed(Contribution(cs[n - 1]))
               && r.effects.warnings == mid.warnings + CountUnsupported(Contribution(cs[n - 1]))
    ensures var f := FirstFault(cs, n);
            && (f < n ==> r.aborted)
            && r.effects.registered <= e.registered + Batches(cs, f)
            && (!r.aborted ==>
                 && r.effects.registered == e.registered + Batches(cs, n)
                 && r.effects.hookCalls == e.hookCalls + Routed(Batches(cs, n))
                 && r.effects.warnings == e.warnings + CountUnsupported(Batches(cs, n)))
  {
    FaultStep(cs, n);
    if !Faults(cs[n - 1]) {
      LiveJoin(e, mid, Batches(cs, n - 1), Contribution(cs[n - 1]), r.effects, r.aborted);
    }
  }

  /** One more collector: where the first fault is, and the batches handed on. */
  lemma FaultStep(cs: seq<Collector>, n: nat)
    requires 0 < n <= |cs|
    requires FirstFault(cs, n - 1) == n - 1
    ensures FirstFault(cs, n) == if Faults(cs[n - 1]) then n - 1 else n
    ensures Batches(cs, n) == Batches(cs, n - 1) + Contribution(cs[n - 1])
  {
  }

  /** Appending one collector's part to the effects of the collectors before it. */
  lemma LiveJoin(e: Effects, mid: Effects, b: seq<Sample>, k: seq<Sample>, r: Effects, aborted: bool)
    requires mid.registered == e.registered + b
    requires mid.hookCalls == e.hookCalls + Routed(b)
    requires mid.warnings == e.warnings + CountUnsupported(b)
    requires r.registered <= mid.registered + k
    requires !aborted ==>
               && r.registered == mid.registered + k
               && r.hookCalls == mid.hookCalls + Routed(k)
               && r.warnings == mid.warnings + CountUnsupported(k)
    ensures r.registered <= e.registered + (b + k)
    ensures !aborted ==>
              && r.registered == e.registered + (b + k)
              && r.hookCalls == e.hookCalls + Routed(b + k)
              && r.warnings == e.warnings + CountUnsupported(b + k)
  {
    AppendAssoc(e.registered, b, k);
    RoutedAppend(b, k);
    AppendAssoc(e.hookCalls, Routed(b), Routed(k));
    CountUnsupportedAppend(b, k);
  }

  /**
   * What the first n collectors of a tick do when the hooks never throw an Error:
   * the tick aborts exactly when one of them faults; the samples registered are the
   * export batches, in registry order, of the collectors before the first fault; each
   * is routed to the hook of its type and each unsupported one logs a warning;
   * export() was called exactly on the updated collectors up to and including the
   * faulting one.
   */
  lemma {:induction false} TickPrefixMeaning(h: Hooks, cs: seq<Collector>, n: nat, e: Effects)
    requires NoHookErrors(h)
    requires n <= |cs|
    ensures var r := TickPrefix(h, cs, n, e);
            var f := FirstFault(cs, n);
            && r.aborted == (f < n)
            && r.effects.registered == e.registered + Batches(cs, f)
            && r.effects.hookCalls == e.hookCalls + Routed(Batches(cs, f))
            && r.effects.warnings == e.warnings + CountUnsupported(Batches(cs, f))
            && r.effects.exportCalls == e.exportCalls + UpdatedBelow(cs, Reached(cs, n))
  {
    if n > 0 {
      TickPrefixMeaning(h, cs, n - 1, e);
      MeaningStep(h, cs, n, e);
    }
  }

  /** The inductive step of TickPrefixMeaning: what holds after n - 1 collectors' turns extends to n. */
  lemma MeaningStep(h: Hooks, cs: seq<Collector>, n: nat, e: Effects)
    requires NoHookErrors(h)
    requires 0 < n <= |cs|
    requires var r := TickPrefix(h, cs, n - 1, e);
             var f := FirstFault(cs, n - 1);
             && r.aborted == (f < n - 1)
             && r.effects.registered == e.registered + Batches(cs, f)
             && r.effects.hookCalls == e.hookCalls + Routed(Batches(cs, f))
             && r.effects.warnings == e.warnings + CountUnsupported(Batches(cs, f))
             && r.effects.exportCalls == e.exportCalls + UpdatedBelow(cs, Reached(cs, n - 1))
    ensures var r := TickPrefix(h, cs, n, e);
            var f := FirstFault(cs, n);
            && r.aborted == (f < n)
            && r.effects.registered == e.registered + Batches(cs, f)
            && r.effects.hookCalls == e.hookCalls + Routed(Batches(cs, f))
            && r.effects.warnings == e.warnings + CountUnsupported(Batches(cs, f))
            && r.effects.exportCalls == e.exportCalls + UpdatedBelow(cs, Reached(cs, n))
  {
    var prev := TickPrefix(h, cs, n - 1, e);
    if prev.aborted {
      AbortedPrefix(h, cs, n, e);
    } else {
      LiveStep(h, cs, n, e, prev.effects, TickPrefix(h, cs, n, e));
    }
  }

  /** The inductive step of TickPrefixMeaning when the first n - 1 collectors did not fault. */
  lemma LiveStep(h: Hooks, cs: seq<Collector>, n: nat, e: Effects, mid: Effects, r: TickResult)
    requires NoHookErrors(h)
    requires 0 < n <= |cs|
    requires FirstFault(cs, n - 1) == n - 1
    requires mid.registered == e.registered + Batches(cs, n - 1)
    requires mid.hookCalls == e.hookCalls + Routed(Batches(cs, n - 1))
    requires mid.warnings == e.warnings + CountUnsupported(Batches(cs, n - 1))
    requires mid.exportCalls == e.exportCalls + UpdatedBelow(cs, n - 1)
    requires r == AfterCollector(h, mid, cs[n - 1], n - 1)
    ensures var f := FirstFault(cs, n);
            && r.aborted == (f < n)
            && r.effects.registered == e.registered + Batches(cs, f)
            && r.effects.hookCalls == e.hookCalls + Routed(Batches(cs, f))
            && r.effects.warnings == e.warnings + CountUnsupported(Batches(cs, f))
            && r.effects.exportCalls == e.exportCalls + UpdatedBelow(cs, Reached(cs, n))
  {
    AfterCollectorMeaning(h, mid, cs[n - 1], n - 1);
    LiveSamples(cs, n, e, mid, r);
    LiveExports(h, cs, n, e, mid);
  }

  /** The samples part of the inductive step of TickPrefixMeaning when the first n - 1 collectors did not fault. */
  lemma LiveSamples(cs: seq<Collector>, n: nat, e: Effects, mid: Effects, r: TickResult)
    requires 0 < n <= |cs|
    requires FirstFault(cs, n - 1) == n - 1
    requires mid.registered == e.registered + Batches(cs, n - 1)
    requires mid.hookCalls == e.hookCalls + Routed(Batches(cs, n - 1))
    requires mid.warnings == e.warnings + CountUnsupported(Batches(cs, n - 1))
    requires r.aborted == Faults(cs[n - 1])
    requires Faults(cs[n - 1]) ==>
               && r.effects.registered == mid.registered && r.effects.hookCalls == mid.hookCalls
               && r.effects.warnings == mid.warnings
    requires !r.aborted ==>
               && r.effects.registered == mid.registered + Contribution(cs[n - 1])
               && r.effects.hookCalls == mid.hookCalls + Routed(Contribution(cs[n - 1]))
               && r.effects.warnings == mid.warnings + CountUnsupported(Contribution(cs[n - 1]))
    ensures var f := FirstFault(cs, n);
            && r.aborted == (f < n)
            && r.effects.registered == e.registered + Batches(cs, f)
            && r.effects.hookCalls == e.hookCalls + Routed(Batches(cs, f))
            && r.effects.warnings == e.warnings + CountUnsupported(Batches(cs, f))
  {
    FaultStep(cs, n);
    if !Faults(cs[n - 1]) {
      LiveJoin(e, mid, Batches(cs, n - 1), Contribution(cs[n - 1]), r.effects, r.aborted);
    }
  }

  lemma LiveExports(h: Hooks, cs: seq<Collector>, n: nat, e: Effects, mid: Effects)
    requires 0 < n <= |cs|
    requires FirstFault(cs, n - 1) == n - 1
    requires mid.exportCalls == e.exportCalls + UpdatedBelow(cs, n - 1)
    ensures AfterCollector(h, mid, cs[n - 1], n - 1).effects.exportCalls
         == e.exportCalls + UpdatedBelow(cs, Reached(cs, n))
    ensures Reached(cs, n) == n
  {
    ExportsStep(cs, n);
    AppendAssoc(e.exportCalls, UpdatedBelow(cs, n - 1), if cs[n - 1].updated == Returns(true) then [n - 1] else []);
  }

  lemma AbortedPrefix(h: Hooks, cs: seq<Collector>, n: nat, e: Effects)
    requires 0 < n <= |cs|
    requires TickPrefix(h, cs, n - 1, e).aborted && FirstFault(cs, n - 1) < n - 1
    ensures TickPrefix(h, cs, n, e) == TickPrefix(h, cs, n - 1, e)
    ensures FirstFault(cs, n) == FirstFault(cs, n - 1) && Reached(cs, n) == Reached(cs, n - 1)
  {
  }

  lemma ExportsStep(cs: seq<Collector>, n: nat)
    requires 0 < n <= |cs|
    requires FirstFault(cs, n - 1) == n - 1
    ensures Reached(cs, n) == n && Reached(cs, n - 1) == n - 1
    ensures UpdatedBelow(cs, n) ==
      UpdatedBelow(cs, n - 1) + (if cs[n - 1].updated == Returns(true) then [n - 1] else [])
  {
  }

  /** The whole tick, as TickPrefixMeaning states it for all collectors, when the hooks never throw an Error. */
  lemma TickMeaning(h: Hooks, cs: seq<Collector>, e: Effects)
    requires NoHookErrors(h)
    ensures var r := Tick(h, cs, e);
            var f := FirstFault(cs, |cs|);
            && r.aborted == (f < |cs|)
            && r.effects.registered == e.registered + Batches(cs, f)
            && r.effects.hookCalls == e.hookCalls + Routed(Batches(cs, f))
            && r.effects.warnings == e.warnings + CountUnsupported(Batches(cs, f))
            && r.effects.exportCalls == e.exportCalls + UpdatedBelow(cs, Reached(cs, |cs|))
  {
    TickPrefixMeaning(h, cs, |cs|, e);
  }

  /**
   * Without a faulting collector, the tick hands on a prefix of the updated
   * collectors' batches in registry order, and all of them unless a hook Error
   * escaped, which hooks without Errors never do.
   */
  lemma TickWithoutFaults(h: Hooks, cs: seq<Collector>, e: Effects)
    requires forall k :: 0 <= k < |cs| ==> !Faults(cs[k])
    ensures Tick(h, cs, e).effects.registered <= e.registered + Batches(cs, |cs|)
    ensures !Tick(h, cs, e).aborted ==>
              && Tick(h, cs, e).effects.registered == e.registered + Batches(cs, |cs|)
              && Tick(h, cs, e).effects.exportCalls == e.exportCalls + UpdatedBelow(cs, |cs|)
    ensures NoHookErrors(h) ==> !Tick(h, cs, e).aborted
  {
    TickPrefixBounds(h, cs, |cs|, e);
    if NoHookErrors(h) {
      TickMeaning(h, cs, e);
    }
  }

  /** export() is called only on collectors that reported updates, whatever the hooks do. */
  lemma ExportOnlyWhenUpdated(h: Hooks, cs: seq<Collector>, e: Effects)
    ensures var calls := Tick(h, cs, e).effects.exportCalls;
            && |e.exportCalls| <= |calls|
            && (forall x :: x in calls[|e.exportCalls|..] ==>
                  x < Reached(cs, |cs|) <= |cs| && cs[x].updated == Returns(true))
  {
    TickPrefixBounds(h, cs, |cs|, e);
    var calls := Tick(h, cs, e).effects.exportCalls;
    PrefixElements(e.exportCalls, calls, UpdatedBelow(cs, Reached(cs, |cs|)));
    UpdatedBelowMeaning(cs, Reached(cs, |cs|));
  }

  /**
   * A collector that reports no updates contributes nothing, whatever its
   * export() would have done: replacing that export changes nothing in the tick.
   */
  lemma {:induction false} IdleExportIrrelevant(h: Hooks, cs: seq<Collector>, i: nat, other: Outcome<seq<Sample>>, n: nat, e: Effects)
    requires i < |cs| && cs[i].updated == Returns(false)
    requires n <= |cs|
    ensures TickPrefix(h, cs[i := cs[i].(exported := other)], n, e) == TickPrefix(h, cs, n, e)
  {
    if n > 0 {
      IdleExportIrrelevant(h, cs, i, other, n - 1, e);
    }
  }

  /**
   * Hooks that fail only with Exceptions never change which samples are registered,
   * which hooks are called, which collectors are exported, or whether the tick aborts.
   */
  lemma HookFailuresDoNotStopTick(h1: Hooks, h2: Hooks, cs: seq<Collector>, e: Effects)
    requires NoHookErrors(h1) && NoHookErrors(h2)
    ensures Tick(h1, cs, e).aborted == Tick(h2, cs, e).aborted
    ensures Tick(h1, cs, e).effects.registered == Tick(h2, cs, e).effects.registered
    ensures Tick(h1, cs, e).effects.hookCalls == Tick(h2, cs, e).effects.hookCalls
    ensures Tick(h1, cs, e).effects.exportCalls == Tick(h2, cs, e).effects.exportCalls
  {
    TickMeaning(h1, cs, e);
    TickMeaning(h2, cs, e);
  }

  /**
   * A hook Error is not caught by registerSample: the first gauge sample of a batch
   * whose hook throws an Error ends the tick, so the rest of that batch and every
   * later collector are skipped, and no error is logged.
   */
  lemma HookErrorEndsTick(h: Hooks, g: Sample, s: Sample, t: Sample)
    requires g.kind == Some(Gauge) && h.gauge(map[], g).end == ThrowsError
    ensures var cs := [Collector(Returns(true), Returns([g, s])), Collector(Returns(true), Returns([t]))];
            var r := Tick(h, cs, NoEffects);
            && r.aborted
            && r.effects.registered == [g]
            && r.effects.hookCalls == [GaugeHook(g)]
            && r.effects.exportCalls == [0]
            && r.effects.errors == 0
  {
    var cs := [Collector(Returns(true), Returns([g, s])), Collector(Returns(true), Returns([t]))];
    var e1 := NoEffects.(exportCalls := [0]);
    assert [g, s][..1] == [g];
    assert [g][..0] == [];
    assert AfterBatch(h, e1, [g]).aborted;
    BatchAbortSticks(h, e1, [g, s], 1);
    assert cs[0].exported == Returns([g, s]) && NoEffects.exportCalls + [0] == [0];
    assert TickPrefix(h, cs, 1, NoEffects) == AfterCollector(h, NoEffects, cs[0], 0) == AfterBatch(h, e1, [g, s]);
    AbortSticks(h, cs, 1, 2, NoEffects);
  }

  /**
   * A collector whose isSamplesUpdated() or export() throws ends the tick: the
   * collectors before it keep at most their batches, all of them when the hooks
   * never throw an Error, and no later collector is exported.
   */
  lemma FaultSkipsRest(h: Hooks, cs: seq<Collector>, e: Effects, k: nat)
    requires k < |cs| && Faults(cs[k])
    requires forall j :: 0 <= j < k ==> !Faults(cs[j])
    ensures Tick(h, cs, e).aborted
    ensures Tick(h, cs, e).effects.registered <= e.registered + Batches(cs, k)
    ensures NoHookErrors(h) ==> Tick(h, cs, e).effects.registered == e.registered + Batches(cs, k)
    ensures |e.exportCalls| <= |Tick(h, cs, e).effects.exportCalls|
    ensures forall x :: x in Tick(h, cs, e).effects.exportCalls[|e.exportCalls|..] ==> x <= k
  {
    FirstFaultAt(cs, k);
    TickPrefixBounds(h, cs, |cs|, e);
    if NoHookErrors(h) {
      TickMeaning(h, cs, e);
    }
    ExportOnlyWhenUpdated(h, cs, e);
  }

  lemma FirstFaultAt(cs: seq<Collector>, k: nat)
    requires k < |cs| && Faults(cs[k])
    requires forall j :: 0 <= j < k ==> !Faults(cs[j])
    ensures FirstFault(cs, |cs|) == k && Reached(cs, |cs|) == k + 1
  {
  }

  /**
   * The source does not isolate a failing export() per collector: with the first
   * collector's export() throwing, the second collector is never exported and its
   * sample is never registered.
   */
  lemma ThrowingExportStarvesLaterCollectors(h: Hooks, s: Sample)
    ensures var cs := [Collector(Returns(true), Throws), Collector(Returns(true), Returns([s]))];
            && Tick(h, cs, NoEffects).aborted
            && Tick(h, cs, NoEffects).effects.registered == []
            && Tick(h, cs, NoEffects).effects.exportCalls == [0]
  {
    var cs := [Collector(Returns(true), Throws), Collector(Returns(true), Returns([s]))];
    assert TickPrefix(h, cs, 1, NoEffects) == TickResult(NoEffects.(exportCalls := [0]), true);
    AbortSticks(h, cs, 1, 2, NoEffects);
  }
}
