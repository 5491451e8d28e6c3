# Tracer core of the Datadog tracer, in Dafny

This project models the `Tracer` class of `packages/datadog-tracer/src/tracer.js`.
The tracer is the orchestrator of the library:

- it buffers each trace's spans as they start;
- when a span finishes and the trace's `started` and `finished` counts agree, it has
  the span sampled, hands the buffer to the writer and empties it;
- it schedules writer flushes on the configured `flushInterval`: zero flushes at once,
  a positive interval arms a single timer, and a negative one leaves flushing to the
  application;
- `flush(done)` clears the timer and starts a writer flush, whose callback forwards
  `rate_by_service` to the sampler when there is no error, then calls `done`;
- `inject` and `extract` dispatch on a fixed table of propagators by format name.

The collaborators (sampler, writer, timers, propagators, `done` callbacks) are seen
only through the calls the tracer makes to them. Those calls are recorded, in order, in
a log of `Steps.Event` values. The writer flushes still in flight are a sequence of
their `done` callbacks. The writer's callback and the timer's expiry are separate steps.

Files:

- `ports.dfy` (module `Ports`): the collaborators' values, namely spans, traces,
  carriers, propagators, flush results and options. `Trace`, `Span` and `Carrier` are
  classes, because the tracer updates `trace.spans` and the carrier in place.
- `steps.dfy` (module `Steps`): each tracer operation as a function from the old state
  to the new one. It also holds runs of operations and the lemmas about them: timer
  uniqueness, coalescing, manual and immediate flushing, `done` accounting, and every
  started span written once.
- `tracer.dfy` (module `TracerCore`): the `Tracer` class. Its fields are `timer`,
  `flushInterval`, the call log, the in-flight flushes and the propagator table. Each
  method updates the fields step by step, and its `ensures` ties the new state to the
  step function of `Steps` that specifies it. Each method also keeps `Valid()`: at most
  one timer is alive, and it is the one the tracer holds.
- `lookup.dfy` (module `PropagatorLookup`): the propagator lookup as written, with its
  failure on inherited property names (see "## Findings").

Three behaviours of the code worth stating:

- Spans enter the trace's buffer when they start (`tracer.js:30`), not when they
  finish. The batch handed to the writer is therefore in start order.
- `process` only reads the trace's counters (`tracer.js:57`); `Span` maintains them. The
  counters are inputs to the model.
- A trace counts as complete whenever `started == finished`, even with an empty buffer.
  In that case an empty batch is written.

## Model

| member | source | states |
|---|---|---|
| TracerCore.Tracer.constructor | packages/datadog-tracer/src/tracer.js:10-21 | No timer; the flush interval the configuration resolved; the propagator table holds exactly "text_map" and "log"; nothing called yet |
| TracerCore.Tracer.Configure | packages/datadog-tracer/src/tracer.js:23-25 | Only `flushInterval` changes, to the given value when one is given; the timer, log and in-flight flushes are untouched |
| TracerCore.Tracer.StartSpan | packages/datadog-tracer/src/tracer.js:27-33 | Returns a new span of `trace`; the buffer becomes the old buffer followed by exactly that span, with earlier entries unchanged; the trace becomes what `Steps.StartSpan` gives |
| Steps.StartSpan | packages/datadog-tracer/src/tracer.js:27-33 | The buffer grows by one, at its end, by exactly the new span; the earlier entries and the counters are unchanged |
| TracerCore.Tracer.Inject | packages/datadog-tracer/src/tracer.js:35-43 | The tracer state and the carrier become what `Steps.Inject` gives; the timer invariant is kept |
| TracerCore.Tracer.Extract | packages/datadog-tracer/src/tracer.js:45-51 | No context for a format outside the table; otherwise exactly the propagator's answer for the carrier |
| TracerCore.Tracer.Process | packages/datadog-tracer/src/tracer.js:53-69 | The tracer state and the span's trace become what `Steps.Process` gives; the timer invariant is kept |
| TracerCore.Tracer.Flush | packages/datadog-tracer/src/tracer.js:71-80 | The state becomes `Steps.Flush` of the old one; afterwards no timer is alive, whether or not one was armed |
| TracerCore.Tracer.FireTimer | packages/datadog-tracer/src/tracer.js:66 | Only an armed timer fires; it performs a `flush()` without a callback |
| TracerCore.Tracer.CompleteFlush | packages/datadog-tracer/src/tracer.js:73-79 | The writer's callback for in-flight flush `k` turns the state into `Steps.Settle` of the old one; the timer invariant is kept |
| Steps.Flush | packages/datadog-tracer/src/tracer.js:71-73 | The timer is cleared; exactly one writer flush is added, whatever the timer was; the flush is in flight with `done`; earlier calls are kept |
| Steps.Schedule | packages/datadog-tracer/src/tracer.js:63-67 | Zero interval: a flush. Positive interval, no timer: a timer armed with that interval as delay. Positive interval with a timer, or a negative interval: nothing changes |
| Steps.Process | packages/datadog-tracer/src/tracer.js:53-69 | Counts differ: tracer and trace unchanged. Counts agree: the span is sampled, then the buffer held before the call is written, the buffer is emptied and `Schedule` applies |
| Steps.ProcessLog | packages/datadog-tracer/src/tracer.js:53-68 | The exact calls of one `process`, in order, and the timer and in-flight flushes it leaves, for each case of counters, interval and timer |
| Steps.RateFeedback | packages/datadog-tracer/src/tracer.js:74-76 | `sampler.update` is called if and only if there is no error and rates are present, and then with exactly those rates |
| Steps.Settle | packages/datadog-tracer/src/tracer.js:73-79 | Flush `k` leaves the in-flight set (as a multiset too); rate feedback is logged, then that flush's `done` is called, if it has one; timer and interval are unchanged |
| Steps.Configure | packages/datadog-tracer/src/tracer.js:23-25 | A given `flushInterval` replaces the configured one; without one nothing changes; timer, log and in-flight flushes are always unchanged |
| Steps.Inject | packages/datadog-tracer/src/tracer.js:35-43 | Unknown format: no sampling and the carrier is unchanged. Known format: the span is sampled, then the propagator writes the carrier, and the carrier is exactly the propagator's output |
| Steps.Extract | packages/datadog-tracer/src/tracer.js:45-51 | Unknown format: no context. Otherwise exactly the propagator's result |
| Steps.StepExtendsLog | packages/datadog-tracer/src/tracer.js:53-80 | No operation ever removes or reorders a call already made |
| Steps.RunExtendsLog | packages/datadog-tracer/src/tracer.js:53-80 | Along any run, the call log only grows at its end |
| Steps.FlushClearsTimers | packages/datadog-tracer/src/tracer.js:71-72 | After a flush no timer is alive |
| Steps.ProcessKeepsTimerConsistent | packages/datadog-tracer/src/tracer.js:63-67 | `process` keeps the held timer equal to the live ones |
| Steps.SettleKeepsTimerConsistent | packages/datadog-tracer/src/tracer.js:73-79 | The flush callback keeps the held timer equal to the live ones |
| Steps.InjectKeepsTimerConsistent | packages/datadog-tracer/src/tracer.js:35-43 | `inject` keeps the held timer equal to the live ones |
| Steps.StepKeepsTimerConsistent | packages/datadog-tracer/src/tracer.js:53-80 | Every operation keeps the held timer equal to the live ones |
| Steps.RunKeepsTimerConsistent | packages/datadog-tracer/src/tracer.js:63-72 | Along any run at most one timer is alive, and it is the one the tracer holds |
| Steps.SettleCalls | packages/datadog-tracer/src/tracer.js:73-79 | The flush callback arms no timer and starts no writer flush |
| Steps.StepManual | packages/datadog-tracer/src/tracer.js:63-67 | Under a negative interval, one operation arms no timer and flushes the writer only when it is `flush` itself |
| Steps.ManualFlushingOnly | packages/datadog-tracer/src/tracer.js:63-67 | With a negative interval that stays negative, no timer is ever armed, and writer flushes equal the application's `flush` calls |
| Steps.StepCoalesces | packages/datadog-tracer/src/tracer.js:65-67 | Under a positive interval, one completion arms a timer only if none was armed, and never flushes |
| Steps.CompletionsCoalesce | packages/datadog-tracer/src/tracer.js:65-67 | Under a positive interval, any number of completions arm exactly one timer with that delay if none was armed and at least one completes, otherwise none; there is no writer flush |
| Steps.StepFlushesAtOnce | packages/datadog-tracer/src/tracer.js:63-64 | Under a zero interval, one completion flushes the writer once and leaves no timer |
| Steps.ImmediateFlushes | packages/datadog-tracer/src/tracer.js:63-64 | Under a zero interval, the writer flushes as often as traces complete, and no timer is ever armed |
| Steps.ProcessDoneAccounting | packages/datadog-tracer/src/tracer.js:53-69 | `process` calls no `done` and adds no flush with a callback |
| Steps.SettleDoneAccounting | packages/datadog-tracer/src/tracer.js:73-79 | Settling moves a `done` from owed to called; the sum of the two is unchanged |
| Steps.StepDoneAccounting | packages/datadog-tracer/src/tracer.js:71-79 | The `done` callbacks owed plus those called grow by one exactly for `flush(done)` |
| Steps.DoneAccounting | packages/datadog-tracer/src/tracer.js:71-79 | Along any run, owed plus called `done(d)` equals the earlier count plus the `flush(d)` calls |
| Steps.DoneCalledExactlyOnce | packages/datadog-tracer/src/tracer.js:71-79 | A `done` given to one `flush` has been called exactly once as soon as that flush has settled, even with other flushes still in flight, whatever the results |
| Steps.ProcessBatches | packages/datadog-tracer/src/tracer.js:57-61 | `process` writes one batch, the buffer, exactly when the counts agree, and nothing otherwise |
| Steps.TraceStepBatches | packages/datadog-tracer/src/tracer.js:27-61 | One step of a trace: what it writes, followed by the new buffer, is the old buffer plus the span it started |
| Steps.EverySpanWrittenOnce | packages/datadog-tracer/src/tracer.js:27-61 | Over a trace's life, earlier batches are kept; the new batches followed by the buffer are exactly the buffered and started spans, each once and in start order |
| PropagatorLookup.LookupAsWritten | packages/datadog-tracer/src/tracer.js:36 | The property read finds own keys, and also the names inherited from `Object.prototype` when the table does not own them |
| PropagatorLookup.InjectAsWritten | packages/datadog-tracer/src/tracer.js:35-43 | As written: the same as `Steps.Inject` except on inherited names, where the span is sampled and then the call throws |
| PropagatorLookup.ExtractAsWritten | packages/datadog-tracer/src/tracer.js:45-51 | As written: it throws exactly on inherited names; otherwise it returns what `Steps.Extract` does |
| PropagatorLookup.ToStringSamplesThenThrows | packages/datadog-tracer/src/tracer.js:36-42 | With the tracer's own table, `inject(span, "toString", carrier)` samples and throws, and `extract` throws. The corrected versions change nothing and return no context |
| PropagatorLookup.DiffersOnlyOnInheritedNames | packages/datadog-tracer/src/tracer.js:36-38 | As-written `inject` throws exactly on inherited names outside the table, and then its state differs from the corrected one |

## Left out

- Timer semantics: `setTimeout(...).unref()` and process liveness (`tracer.js:66`). A
  timer is an armed flag with its delay. Its expiry is the explicit `FireTimer` step, and
  the timer callback's own `flush()` is that step.
- The module-level singleton and the `beforeExit` hook (`tracer.js:83-85`). They are
  process lifecycle plumbing. The hook's effect is an ordinary `flush()`.
- The internals of `Writer`, `Sampler`, `Span`, `Config`, `TextMapPropagator` and
  `LogPropagator`. Their files are not part of this model. Sampling math, encoding,
  transport and carrier formats are therefore absent. A propagator is a pair of opaque
  functions. `sampler.sample`, `writer.write`, `writer.flush`, `sampler.update` and
  `propagator.inject` are recorded as log entries.
- `Span`'s constructor: the span's options, its tracer back-reference, and its updates
  to the trace's `started` and `finished` counters. `StartSpan` only creates a span of
  the given trace and buffers it. The counters are inputs.
- The constructor's `Config`: the resolved `flushInterval` is a parameter.
- Asynchrony of the writer flush. Each flush stays in flight until a `CompleteFlush`
  step settles it (any in-flight flush, in any order). Retries and cancellation are not
  modelled.
- Steps.Configure: `Config.update` is a foreign call. It is modelled as replacing
  `flushInterval` when the option is given. Its other options are not modelled.
- `flushInterval` is an integer. Non-integer or non-numeric values are not modelled.
- Steps.Settle: a result with no error is assumed to be an object. The code would
  throw on `res.rate_by_service` if the writer passed no error and no result.
- Steps.Settle: settling removes the flush from the in-flight set. So the model assumes the
  writer calls each flush callback exactly once; tracer.js itself does not enforce this.
  `Steps.DoneCalledExactlyOnce` rests on that assumption. A writer that called a callback
  twice would make the source call `done` twice.
- Steps.RateFeedback: `!err` and `res.rate_by_service` (`tracer.js:74`) are JavaScript
  truthiness tests. A `FlushResult` holds an error or none, and a rate table or none. A
  present but falsy error (`""`, `0`) counts as an error, where the source treats it as
  none. A falsy rate table cannot occur in the model.
- Steps.Inject, Steps.Extract, TracerCore.Tracer.Inject, TracerCore.Tracer.Extract: they
  look up the propagator table by its own keys only. That is the corrected lookup, not the
  property read of `tracer.js:36` as written. The as-written lookup, which also finds
  `Object.prototype` members, is `PropagatorLookup.InjectAsWritten` and
  `PropagatorLookup.ExtractAsWritten` (see "## Findings").
- Exceptions thrown by collaborators (the sampler, the writer, a propagator, `done`) are
  not modelled. The only exception modelled is the one in "## Findings".
- `inject` is not one of the operations of `Steps.Op`. It only adds a sample and a
  propagator call. `Steps.InjectKeepsTimerConsistent` shows that it leaves the timer
  invariant alone.
- Steps.EverySpanWrittenOnce: it follows one trace through its life, interleaved with
  the `process` calls of its own spans. Other traces and flushes are not interleaved in
  that lemma.

## Findings

| source | as written | input that shows it | evidently intended | confidence | as-written member | corrected member |
|---|---|---|---|---|---|---|
| packages/datadog-tracer/src/tracer.js:36-42 | `this._propagators[format]` is a property read on a plain object literal. It also finds the members inherited from `Object.prototype`, which pass the `if (!propagator)` guard. The later `propagator.inject` or `propagator.extract` is then not a function and throws a TypeError, after `inject` has already sampled the span. | `inject(span, "toString", carrier)` or `extract("toString", carrier)`; likewise "constructor", "hasOwnProperty", "valueOf", "__proto__" | An unknown format is a silent no-op for `inject` and gives `null` for `extract`. Only the table's own keys are formats. | medium; not executed | PropagatorLookup.ToStringSamplesThenThrows | Steps.Inject |
