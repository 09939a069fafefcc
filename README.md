# Metrics reporter tick: a Dafny model

This project models the base class of the Apollo metrics reporters,
`AbstractMetricsReporter`. Its `init()` does three things in order: the backend's
own setup (`doInit`), taking the collector list, and arming a recurring job.
Every run of that job is one tick (`updateMetricsData`). A tick walks the
collectors in registry order and skips any whose `isSamplesUpdated()` is false.
It exports the samples of each of the others and passes each sample to
`registerSample`. That method switches on the sample type: a gauge goes to
`registerGaugeSample`, a counter to `registerCounterSample`, and any other type is
logged and dropped. A try/catch of `Exception` around the switch logs and drops
an exception a hook throws. An `Error` is not an `Exception`: it passes that catch,
leaves both loops of the tick, and only the job's catch of `Throwable` stops it.
`getTags` flattens a sample's tag map into two parallel arrays, one of
label names and one of label values.

Files:

- `samples.dfy` (module `Samples`): the sample model. A metric type is `Gauge`,
  `Counter` or `Unsupported`. A sample has a name, an optional type, an optional
  tag map and an opaque integer value. `Outcome` is what a foreign call did: it
  returned a value or it threw.
- `tags.dfy` (module `Tags`): `getTags` as a function over the tag map's entries,
  kept in the map's iteration order.
- `dispatch.dfy` (module `Dispatch`): registerSample, one collector's turn and a
  whole tick, written as functions on an explicit observable state (`Effects`),
  with lemmas for the properties of the tick. `Effects` holds the backend map, the
  samples handed to registerSample, the hook calls, the positions of the
  collectors whose `export()` was called, and the warning and error counts.
- `reporter.dfy` (module `Reporter`): the class `MetricsReporter`. It has the
  source's fields: the URL and the collector list. It also keeps the observable
  state, and its methods follow the source's methods. The tick is the method
  `UpdateMetricsData` with the source's outer loop. The inner loop over one export
  batch is written out as its own method, `RegisterBatch`. The loop invariants tie
  the two to `Dispatch.TickPrefix` and `Dispatch.AfterBatch`.

Modelling choices:

- A collector is a record, `Collector(updated, exported)`. `updated` is what
  `isSamplesUpdated()` does and `exported` is what `export()` does, if it is
  called. Either may throw. This record stands in for the collector objects that
  the service locator hands out.
- The two register hooks are abstract in the source. Here they are a `Hooks`
  value: two functions from the backend map and a sample to a `HookResult`. A
  `HookResult` holds the new backend and how the call ended (`HookEnd`): it
  completed, threw an Exception, or threw an Error. A hook may fail after changing
  part of the backend. The exact statements of the tick (`Dispatch.TickMeaning`,
  `Dispatch.HookFailuresDoNotStopTick`) are about hooks that never throw an Error
  (`NoHookErrors`). `Dispatch.TickPrefixBounds` and `Dispatch.TickPrefixRouting` cover any hooks, and
  `Dispatch.HookErrorEndsTick` shows a hook Error ending the tick.
- The source logs warnings and errors. The model counts them: `warnings` counts
  samples of an unsupported type (line 85), and `errors` counts exceptions caught
  in registerSample (line 89); a hook Error is not logged there. The scheduled
  job drops what escapes a tick without logging it (lines 55-57). The model
  counts those in `swallowed`.
- A sample whose type is null makes the `switch` throw a NullPointerException.
  The catch at line 88 takes it, so the model logs it as an error and calls no hook.
- The intended design is that a failing `export()` affects only its own
  collector. The code does not do this. The try/catch at lines 76-90 covers
  registration only. An exception from `isSamplesUpdated()` or `export()` leaves
  `updateMetricsData`, and only the scheduled job's catch at lines 52-57 stops it.
  The collectors after it are skipped for that tick. The model follows the code:
  see `Dispatch.FaultSkipsRest` and `Dispatch.ThrowingExportStarvesLaterCollectors`.
- The Java constructor calls `init()` straight away. In the model the
  constructor leaves the reporter uninitialised and `Init` is a separate method.
  This lets `Init` return whether the backend setup threw. That exception is
  fatal in the source, and in the model nothing after it happens.

## Model

| member | source | states |
|---|---|---|
| `Reporter.MetricsReporter.constructor` | src/main/java/www/raven/ospp/metrics/reporter/AbstractMetricsReporter.java:25-29 | the URL is stored; no collectors, no init steps, no effects yet |
| `Reporter.MetricsReporter.Init` | src/main/java/www/raven/ospp/metrics/reporter/AbstractMetricsReporter.java:32-37 | runs backend setup, then collector acquisition, then arms the collection job with delay 5000 ms and period 5000 ms, in that order; if backend setup throws, nothing after it happens and the collector list is not replaced |
| `Reporter.MetricsReporter.DoInit` | src/main/java/www/raven/ospp/metrics/reporter/AbstractMetricsReporter.java:44 | the backend setup step is taken, and it reports whether it threw |
| `Reporter.MetricsReporter.InitCollectors` | src/main/java/www/raven/ospp/metrics/reporter/AbstractMetricsReporter.java:39-42 | the collector list becomes the registry's list, as it is |
| `Reporter.MetricsReporter.InitScheduleMetricsCollectSync` | src/main/java/www/raven/ospp/metrics/reporter/AbstractMetricsReporter.java:46-59 | arms the collection job with getInitialDelay() = 5000 and getPeriod() = 5000 milliseconds |
| `Reporter.Period` | src/main/java/www/raven/ospp/metrics/reporter/AbstractMetricsReporter.java:103-105 | the collection period is 5000 milliseconds |
| `Reporter.InitialDelay` | src/main/java/www/raven/ospp/metrics/reporter/AbstractMetricsReporter.java:107-109 | the delay before the first tick is 5000 milliseconds |
| `Reporter.MetricsReporter.Run` | src/main/java/www/raven/ospp/metrics/reporter/AbstractMetricsReporter.java:51-57 | once the collection job is armed, performs exactly one tick; a throwable escaping it (a collector fault or a hook Error) is swallowed and counted, so the job always returns normally |
| `Reporter.MetricsReporter.UpdateMetricsData` | src/main/java/www/raven/ospp/metrics/reporter/AbstractMetricsReporter.java:62-73 | the nested loops end in exactly the state `Dispatch.Tick` gives, and report whether a throwable left them; a hook Error leaves both loops at once |
| `Reporter.MetricsReporter.RegisterBatch` | src/main/java/www/raven/ospp/metrics/reporter/AbstractMetricsReporter.java:68-70 | the inner loop ends in exactly the state `Dispatch.AfterBatch` gives, and reports whether a hook Error left it |
| `Reporter.MetricsReporter.RegisterSample` | src/main/java/www/raven/ospp/metrics/reporter/AbstractMetricsReporter.java:75-91 | the new state and the escape flag are the ones `Dispatch.AfterSample` gives |
| `Reporter.MetricsReporter.RegisterGaugeSample` | src/main/java/www/raven/ospp/metrics/reporter/AbstractMetricsReporter.java:79 | one gauge-hook call is logged, the backend becomes the hook's result, and the method reports how the hook ended |
| `Reporter.MetricsReporter.RegisterCounterSample` | src/main/java/www/raven/ospp/metrics/reporter/AbstractMetricsReporter.java:82 | one counter-hook call is logged, the backend becomes the hook's result, and the method reports how the hook ended |
| `Dispatch.Route` | src/main/java/www/raven/ospp/metrics/reporter/AbstractMetricsReporter.java:77-86 | a sample causes at most one hook call, carrying that sample: the gauge hook exactly for a gauge, the counter hook exactly for a counter, and none for a typeless or unsupported sample |
| `Dispatch.Routed` | src/main/java/www/raven/ospp/metrics/reporter/AbstractMetricsReporter.java:68-70 | a batch causes no more hook calls than it has samples (which call each sample makes is `Dispatch.Route`, and `Dispatch.RoutedAppend` keeps them in order) |
| `Dispatch.RoutedAppend` | src/main/java/www/raven/ospp/metrics/reporter/AbstractMetricsReporter.java:68-70 | routing two batches one after the other gives their routings one after the other; with `Dispatch.Route` this is one call per gauge or counter sample, in batch order |
| `Dispatch.RoutedOnlyToMatchingHook` | src/main/java/www/raven/ospp/metrics/reporter/AbstractMetricsReporter.java:77-86 | every gauge hook call carries a gauge sample of the batch and every counter hook call a counter sample; every gauge and counter sample of the batch has a call among them (how many calls: `Dispatch.RoutedAppend`) |
| `Dispatch.AfterSample` | src/main/java/www/raven/ospp/metrics/reporter/AbstractMetricsReporter.java:75-91 | the sample is registered; a gauge reaches only the gauge hook and a counter only the counter hook; any other type calls no hook, leaves the backend alone and logs one warning; a typeless sample or a hook Exception logs one error; a hook Error logs nothing and escapes |
| `Dispatch.AfterBatch` | src/main/java/www/raven/ospp/metrics/reporter/AbstractMetricsReporter.java:68-70 | the inner loop never touches the export log |
| `Dispatch.AfterBatchHandled` | src/main/java/www/raven/ospp/metrics/reporter/AbstractMetricsReporter.java:68-70 | the samples registered are a prefix of the batch, all of it unless a hook Error escaped; the hook calls and warnings are exactly those of the samples registered |
| `Dispatch.AfterBatchEscape` | src/main/java/www/raven/ospp/metrics/reporter/AbstractMetricsReporter.java:68-70 | the error count never decreases; an abort comes right after a registered sample that went to a hook and whose hook threw an Error for some backend |
| `Dispatch.AfterBatchNoEscape` | src/main/java/www/raven/ospp/metrics/reporter/AbstractMetricsReporter.java:68-70 | hooks that never throw an Error, or a batch in which no sample goes to a hook, let the whole batch through; in the latter case the backend is unchanged |
| `Dispatch.BatchAbortSticks` | src/main/java/www/raven/ospp/metrics/reporter/AbstractMetricsReporter.java:68-70 | once a hook Error has escaped, the rest of the batch changes nothing |
| `Dispatch.AfterCollector` | src/main/java/www/raven/ospp/metrics/reporter/AbstractMetricsReporter.java:63-71 | one collector's turn logs export() exactly when isSamplesUpdated() returned true; a collector that is not updated leaves everything as it was, and aborts exactly when isSamplesUpdated() threw |
| `Dispatch.AfterCollectorMeaning` | src/main/java/www/raven/ospp/metrics/reporter/AbstractMetricsReporter.java:63-71 | a faulting collector throws out before registering anything; otherwise it registers a prefix of its batch, all of it with its routing and warnings unless a hook Error escaped; without hook Errors the turn throws exactly when the collector faults |
| `Dispatch.FirstFault` | src/main/java/www/raven/ospp/metrics/reporter/AbstractMetricsReporter.java:63-67 | the first position whose isSamplesUpdated() or export() throws, with no fault before it |
| `Dispatch.UpdatedBelowMeaning` | src/main/java/www/raven/ospp/metrics/reporter/AbstractMetricsReporter.java:63-66 | the listed positions are exactly the updated collectors, in increasing order |
| `Dispatch.TickPrefix` | src/main/java/www/raven/ospp/metrics/reporter/AbstractMetricsReporter.java:62-73 | a tick over the first n collectors only appends to the registered, hook-call and export logs |
| `Dispatch.Tick` | src/main/java/www/raven/ospp/metrics/reporter/AbstractMetricsReporter.java:62-73 | a whole tick only appends to the registered, hook-call and export logs |
| `Dispatch.AbortSticks` | src/main/java/www/raven/ospp/metrics/reporter/AbstractMetricsReporter.java:62-73 | once a throwable has left the loop, later collectors change nothing |
| `Dispatch.TickPrefixBounds` | src/main/java/www/raven/ospp/metrics/reporter/AbstractMetricsReporter.java:62-73 | for any hooks, over the first n collectors: a faulting collector aborts the tick; the samples registered are a prefix of the batches before the first fault and the export calls a prefix of the updated positions up to it; a tick that does not abort registered every batch with its routing and warnings and exported every updated collector |
| `Dispatch.TickPrefixRouting` | src/main/java/www/raven/ospp/metrics/reporter/AbstractMetricsReporter.java:62-90 | for any hooks, over the first n collectors, whether or not the tick aborts: the hook calls made are exactly the routes of the samples registered, in order, and the warnings exactly the number of unsupported ones among them |
| `Dispatch.TickPrefixMeaning` | src/main/java/www/raven/ospp/metrics/reporter/AbstractMetricsReporter.java:62-73 | for hooks that never throw an Error, over the first n collectors: aborts exactly at a fault; registers the concatenated batches of the updated collectors before the first fault, each in its own order; routes them to their hooks; logs one warning per unsupported sample; calls export() exactly on the updated collectors up to and including the fault |
| `Dispatch.TickMeaning` | src/main/java/www/raven/ospp/metrics/reporter/AbstractMetricsReporter.java:62-73 | the same for a whole tick, for any starting state and any hooks that never throw an Error |
| `Dispatch.TickWithoutFaults` | src/main/java/www/raven/ospp/metrics/reporter/AbstractMetricsReporter.java:62-73 | with no faulting collector, the tick registers a prefix of the updated collectors' batches in registry order, all of them unless a hook Error escaped, and hooks without Errors never abort it |
| `Dispatch.ExportOnlyWhenUpdated` | src/main/java/www/raven/ospp/metrics/reporter/AbstractMetricsReporter.java:63-67 | for any hooks, export() is called only on collectors whose isSamplesUpdated() returned true, and none after the first faulting collector |
| `Dispatch.IdleExportIrrelevant` | src/main/java/www/raven/ospp/metrics/reporter/AbstractMetricsReporter.java:64-66 | for a collector that reports no updates, replacing what its export() would do changes nothing in the tick |
| `Dispatch.HookFailuresDoNotStopTick` | src/main/java/www/raven/ospp/metrics/reporter/AbstractMetricsReporter.java:76-90 | two backends whose hooks throw at most Exceptions, one failing and one not, see the same samples registered, the same hook calls, the same collectors exported and the same abort |
| `Dispatch.HookErrorEndsTick` | src/main/java/www/raven/ospp/metrics/reporter/AbstractMetricsReporter.java:76-90 | a gauge hook that throws an Error on the first sample of a batch ends the tick: the second sample and the next collector are skipped, one hook call and no error are logged |
| `Dispatch.FaultSkipsRest` | src/main/java/www/raven/ospp/metrics/reporter/AbstractMetricsReporter.java:62-73 | at the first faulting collector the tick aborts; earlier collectors registered at most their batches, all of them when hooks throw no Error; no later collector is exported |
| `Dispatch.ThrowingExportStarvesLaterCollectors` | src/main/java/www/raven/ospp/metrics/reporter/AbstractMetricsReporter.java:67 | concrete case: when the first collector's export() throws, the second collector is never exported and its sample is never registered |
| `Tags.Names` | src/main/java/www/raven/ospp/metrics/reporter/AbstractMetricsReporter.java:98 | the label names are the tag map's keys, in its iteration order, one per entry |
| `Tags.Values` | src/main/java/www/raven/ospp/metrics/reporter/AbstractMetricsReporter.java:99 | the label values are the tag map's values, in its iteration order, one per entry |
| `Tags.GetTags` | src/main/java/www/raven/ospp/metrics/reporter/AbstractMetricsReporter.java:93-101 | a null or empty tag map gives two empty sequences; otherwise both have the map's size, the names are the keys with none repeated, and values[i] is the value of names[i] |
| `Tags.EntriesMapFacts` | src/main/java/www/raven/ospp/metrics/reporter/AbstractMetricsReporter.java:98-99 | with distinct keys every entry is in the map with its own value, the map has one key per entry, and it has no other keys |
| `Tags.GetTagsRoundTrip` | src/main/java/www/raven/ospp/metrics/reporter/AbstractMetricsReporter.java:98-100 | zipping the names back with the values gives the tag map again |

## Left out

- PrometheusMetricReporter is not part of this model. It is a wrapper over the Prometheus client library, whose code is not visible here. That covers counter accumulation, gauge last-write-wins, the push gateway job gated on a non-empty URL, and `response()`. Those are modelled only as the abstract hooks in `Dispatch.Hooks`.
- Timing and concurrency: the model has no `ScheduledExecutorService`, no fixed-rate timing, and no static executor shared by instances. It has no interleaving with a push job either. The armed job is the step `CollectJobArmed(5000, 5000)`, and each of its runs is one call of `Run`.
- The service locator (`SimpleInjector`, `MetricsCollectorManager`) is not modelled. `Init` is given the collector list directly.
- Collector internals are not modelled. A collector's answers are fixed in its record, so `export()` does not reset the updated flag between ticks.
- An element of an export list that is itself null is not modelled. A null sample type is modelled, and the code treats both the same way: it throws inside the try and logs an error.
- Log messages are not modelled. Only their counts are: warnings, errors, and throwables swallowed by the job.
- Sample values are opaque integers. The source's floating-point values and the downcasts to the gauge and counter sample classes are not modelled, because a sample carries its type as a tagged union.
- `Period` and `InitialDelay` are the base class's defaults. A subclass that overrides `getPeriod` or `getInitialDelay` is not modelled.
- `Dispatch.AfterBatchEscape`: the error count of a batch is stated only as never decreasing. The number of hook Exceptions depends on how the backend evolves during the batch.
- `Dispatch.TickPrefixMeaning`, `Dispatch.TickMeaning` and `Dispatch.HookFailuresDoNotStopTick` are stated for hooks that never throw an Error. When a hook throws an Error, where the tick stops depends on the backend at each hook call. For that case `Dispatch.TickPrefixBounds` gives the prefixes, `Dispatch.TickPrefixRouting` the exact hook calls and warnings of what was registered, and `Dispatch.HookErrorEndsTick` gives a concrete instance.
