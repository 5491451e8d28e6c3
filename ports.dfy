/**
 The collaborators of the tracer core, seen only at the interface the core uses:
 spans and the traces they belong to, propagation carriers and propagators,
 the writer's flush result and the options accepted by `configure`.
 Their own logic (span bookkeeping, sampling math, encoding, transport, carrier
 formats) is not part of this model.
 */
module Ports {

  datatype Option<+T> = None | Some(value: T) {
    /** The value held, or `default` when there is none. */
    function GetOr(default: T): T {
      if Some? then value else default
    }
  }

  /** Identity of a `done` callback handed to `flush`. */
  type Done = nat

  /** `rate_by_service`: service key to sampling rate, as the agent returns it. */
  type RateTable = map<string, real>

  /** The string fields of a propagation carrier (a plain object of headers or log fields). */
  type Fields = map<string, string>

  /** The trace context a propagator reads back from a carrier. */
  datatype SpanContext = SpanContext(traceId: nat, spanId: nat)

  /**
   A propagation strategy: how it writes a span's context into a carrier and what it
   reads back from one. Both are the propagator's own business; the core only dispatches.
   */
  datatype Propagator = Propagator(
    inject: (Span, Fields) -> Fields,
    extract: Fields -> Option<SpanContext>)

  /** What the writer hands its flush callback: an error, or a result that may carry rates. */
  datatype FlushResult = FlushResult(error: Option<string>, rateByService: Option<RateTable>)

  /** The options `configure` passes to the configuration; only `flushInterval` is modelled. */
  datatype Options = Options(flushInterval: Option<int>)

  /** The value of a trace at one moment. */
  datatype TraceState = TraceState(started: nat, finished: nat, spans: seq<Span>)

  /**
   A trace: `started` and `finished` are kept by the spans themselves; `spans` is the
   buffer of spans not yet handed to the writer.
   */
  class Trace {
    var started: nat
    var finished: nat
    var spans: seq<Span>

    constructor ()
      ensures started == 0 && finished == 0 && spans == []
    {
      started, finished, spans := 0, 0, [];
    }

    ghost function Value(): TraceState
      reads this
    {
      TraceState(started, finished, spans)
    }
  }

  /** A span, with its back-reference to the trace it belongs to. */
  class Span {
    const trace: Trace
    const name: string

    constructor (trace: Trace, name: string)
      ensures this.trace == trace && this.name == name
    {
      this.trace := trace;
      this.name := name;
    }
  }

  /** A carrier object that a propagator writes into. */
  class Carrier {
    var fields: Fields

    constructor (fields: Fields)
      ensures this.fields == fields
    {
      this.fields := fields;
    }
  }
}
