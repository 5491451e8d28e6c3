/**
 The tracer: the orchestrator that buffers spans per trace, hands finished traces to
 the writer, schedules writer flushes on the configured interval, feeds flush results
 back to the sampler and dispatches propagation by format name.

 The collaborators (writer, sampler, timers, propagators) are seen through `log`, the
 ordered record of the calls the tracer makes to them, and `pending`, the `done` of
 each writer flush that has not settled yet. Every method is tied to the step function
 of `Steps` that specifies it; the properties of those functions are proved there.
 */
module TracerCore {
  import opened Ports
  import Steps

  class Tracer {
    var timer: Option<Steps.Timer>
    var flushInterval: int
    var log: seq<Steps.Event>
    var pending: seq<Option<Done>>
    const propagators: map<string, Propagator>

    /** The tracer as the step functions see it. */
    ghost function State(): Steps.State
      reads this
    {
      Steps.State(timer, flushInterval, log, pending)
    }

    /** At most one timer is alive, and it is the one held in `timer`. */
    ghost predicate Valid()
      reads this
    {
      Steps.TimerConsistent(State())
    }

    /**
     A tracer with the flush interval its configuration resolved, no timer, and the
     fixed propagator table: "text_map" and "log".
     */
    constructor (flushInterval: int, textMap: Propagator, logPropagator: Propagator)
      ensures Valid()
      ensures timer == None && this.flushInterval == flushInterval
      ensures log == [] && pending == []
      ensures propagators == map["text_map" := textMap, "log" := logPropagator]
    {
      timer := None;
      this.flushInterval := flushInterval;
      log := [];
      pending := [];
      propagators := map["text_map" := textMap, "log" := logPropagator];
    }

    /** configure(options): only the flush interval changes, and only when given. */
    method Configure(options: Options)
      requires Valid()
      modifies this
      ensures Valid()
      ensures State() == Steps.Step(old(State()), Steps.Reconfigure(options))
      ensures flushInterval == options.flushInterval.GetOr(old(flushInterval))
      ensures timer == old(timer) && log == old(log) && pending == old(pending)
    {
      flushInterval := options.flushInterval.GetOr(flushInterval);
    }

    /** startSpan(name): the new span, of `trace`, is appended to that trace's buffer. */
    method StartSpan(name: string, trace: Trace) returns (span: Span)
      modifies trace`spans
      ensures fresh(span) && span.trace == trace && span.name == name
      ensures trace.spans == old(trace.spans) + [span]
      ensures trace.Value() == Steps.StartSpan(old(trace.Value()), span)
    {
      span := new Span(trace, name);
      trace.spans := trace.spans + [span];
    }

    /** inject(span, format, carrier), as `Steps.Inject` specifies it. */
    method Inject(span: Span, format: string, carrier: Carrier)
      requires Valid()
      modifies this, carrier
      ensures Valid()
      ensures (State(), carrier.fields) == Steps.Inject(old(State()), propagators, format, span, old(carrier.fields))
    {
      ghost var s0, c0 := State(), carrier.fields;
      if format !in propagators {
        return;
      }
      var propagator := propagators[format];
      log := log + [Steps.Sampled(span), Steps.Injected(format, span)];
      carrier.fields := propagator.inject(span, carrier.fields);
      Steps.InjectKeepsTimerConsistent(s0, propagators, format, span, c0);
    }

    /** extract(format, carrier), as `Steps.Extract` specifies it. */
    method Extract(format: string, carrier: Carrier) returns (context: Option<SpanContext>)
      ensures format !in propagators ==> context == None
      ensures format in propagators ==> context == propagators[format].extract(carrier.fields)
    {
      if format !in propagators {
        return None;
      }
      var propagator := propagators[format];
      context := propagator.extract(carrier.fields);
    }

    /** process(span), as `Steps.Process` specifies it, on the span's own trace. */
    method Process(span: Span)
      requires Valid()
      modifies this, span.trace
      ensures Valid()
      ensures (State(), span.trace.Value()) == Steps.Process(old(State()), old(span.trace.Value()), span)
    {
      var trace := span.trace;
      ghost var s0, t0 := State(), trace.Value();
      var interval := flushInterval;
      if trace.started == trace.finished {
        log := log + [Steps.Sampled(span), Steps.Written(trace.spans)];
        trace.spans := [];
        if flushInterval == 0 {
          Flush(None);
        } else if flushInterval > 0 && timer.None? {
          log := log + [Steps.TimeoutSet(interval)];
          timer := Some(Steps.Timer(interval));
        }
      }
      Steps.ProcessKeepsTimerConsistent(s0, t0, span);
    }

    /** flush(done), as `Steps.Flush` specifies it. */
    method Flush(done: Option<Done>)
      modifies this
      ensures Valid()
      ensures State() == Steps.Flush(old(State()), done)
    {
      ghost var s0 := State();
      timer := None;
      log := log + [Steps.TimeoutCleared, Steps.WriterFlushed];
      pending := pending + [done];
      Steps.FlushClearsTimers(s0, done);
    }

    /** The armed timer expires and calls flush() without a callback. */
    method FireTimer()
      requires Valid() && timer.Some?
      modifies this
      ensures Valid()
      ensures State() == Steps.Step(old(State()), Steps.TimerFires)
    {
      Flush(None);
    }

    /** The writer calls back its in-flight flush number `k` with `result`, as `Steps.Settle` specifies. */
    method CompleteFlush(k: nat, result: FlushResult)
      requires Valid() && k < |pending|
      modifies this
      ensures Valid()
      ensures State() == Steps.Settle(old(State()), k, result)
    {
      ghost var s0 := State();
      var done := pending[k];
      pending := pending[..k] + pending[k + 1..];
      if result.error.None? && result.rateByService.Some? {
        log := log + [Steps.RatesUpdated(result.rateByService.value)];
      }
      assert log == s0.log + Steps.RateFeedback(result);
      if done.Some? {
        log := log + [Steps.DoneCalled(done.value)];
      }
      Steps.SettleKeepsTimerConsistent(s0, k, result);
    }
  }
}
