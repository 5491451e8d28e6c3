/**
 The tracer core as a state machine over values. `State` holds the optional flush
 timer, the configured flush interval, the ordered log of calls the core makes to
 its collaborators (sampler, writer, timers, propagators, `done` callbacks) and the
 writer flushes still in flight. Each operation of the tracer is a function from
 the old state to the new one; runs of operations and their properties follow.
 */
module Steps {
  import opened Ports

  /** An armed `setTimeout` and the delay it was armed with. */
  datatype Timer = Timer(delay: int)

  /** One call the core makes to a collaborator, in the order it makes them. */
  datatype Event =
    | Sampled(span: Span)                   // sampler.sample(span)
    | Written(spans: seq<Span>)             // writer.write(spans)
    | WriterFlushed                         // writer.flush(callback)
    | RatesUpdated(rates: RateTable)        // sampler.update(rate_by_service)
    | DoneCalled(done: Done)                // done()
    | TimeoutSet(delay: int)                // setTimeout(flush, delay)
    | TimeoutCleared                        // clearTimeout(timer)
    | Injected(format: string, span: Span)  // propagator.inject(span, carrier)

  datatype State = State(
    timer: Option<Timer>,
    flushInterval: int,
    log: seq<Event>,
    pending: seq<Option<Done>>)  // the `done` of every writer flush not yet settled

  // ---------------------------------------------------------------------------
  // Views of the log

  /** The batches handed to `writer.write`, in order. */
  function Batches(log: seq<Event>): seq<seq<Span>> {
    if log == [] then []
    else (if log[0].Written? then [log[0].spans] else []) + Batches(log[1..])
  }

  /** The number of timers armed since the last `clearTimeout`, i.e. the timers alive. */
  function LiveTimers(log: seq<Event>): nat {
    if log == [] then 0
    else match log[|log| - 1]
      case TimeoutCleared => 0
      case TimeoutSet(_) => LiveTimers(log[..|log| - 1]) + 1
      case _ => LiveTimers(log[..|log| - 1])
  }

  /** The spans of a sequence of batches, in order. */
  function Flatten(batches: seq<seq<Span>>): seq<Span> {
    if batches == [] then [] else batches[0] + Flatten(batches[1..])
  }

  /** The tracer's timer field agrees with the timers the log leaves alive. */
  ghost predicate TimerConsistent(s: State) {
    LiveTimers(s.log) == if s.timer.Some? then 1 else 0
  }

  lemma {:induction false} BatchesAppend(a: seq<Event>, b: seq<Event>)
    ensures Batches(a + b) == Batches(a) + Batches(b)
  {
    if a == [] {
      assert a + b == b;
    } else {
      assert (a + b)[1..] == a[1..] + b;
      BatchesAppend(a[1..], b);
    }
  }

  lemma LiveTimersSnoc(log: seq<Event>, e: Event)
    ensures LiveTimers(log + [e]) ==
      if e.TimeoutCleared? then 0
      else if e.TimeoutSet? then LiveTimers(log) + 1
      else LiveTimers(log)
  {
    assert (log + [e])[..|log + [e]| - 1] == log;
  }

  lemma {:induction false} FlattenAppend(a: seq<seq<Span>>, b: seq<seq<Span>>)
    ensures Flatten(a + b) == Flatten(a) + Flatten(b)
  {
    if a == [] {
      assert a + b == b;
    } else {
      assert (a + b)[1..] == a[1..] + b;
      FlattenAppend(a[1..], b);
    }
  }

  // ---------------------------------------------------------------------------
  // Operations

  /**
   flush(done): clears the timer (the call to clearTimeout is made whether or not a
   timer is armed) and starts one writer flush that will settle with `done`.
   */
  function Flush(s: State, done: Option<Done>): (r: State)
    ensures r.timer == None
    ensures r.flushInterval == s.flushInterval
    ensures r.pending == s.pending + [done]
    ensures |r.log| == |s.log| + 2 && r.log[..|s.log|] == s.log
    ensures multiset(r.log)[WriterFlushed] == multiset(s.log)[WriterFlushed] + 1
  {
    State(None, s.flushInterval, s.log + [TimeoutCleared, WriterFlushed], s.pending + [done])
  }

  /**
   The scheduling rule applied after a trace is written: a zero interval flushes
   now; a positive one arms a timer with that delay only when none is armed, so that
   completions coalesce; a negative one leaves flushing to explicit `flush` calls.
   */
  function Schedule(s: State): (r: State)
    ensures r.flushInterval == s.flushInterval
    ensures s.flushInterval == 0 ==> r == Flush(s, None)
    ensures s.flushInterval > 0 && s.timer.None? ==>
      && r.timer == Some(Timer(s.flushInterval))
      && r.log == s.log + [TimeoutSet(s.flushInterval)]
      && r.pending == s.pending
    ensures s.flushInterval > 0 && s.timer.Some? ==> r == s
    ensures s.flushInterval < 0 ==> r == s
  {
    if s.flushInterval == 0 then Flush(s, None)
    else if s.flushInterval > 0 && s.timer.None? then
      s.(timer := Some(Timer(s.flushInterval)), log := s.log + [TimeoutSet(s.flushInterval)])
    else s
  }

  /**
   process(span) for a span of trace `t`. Nothing happens unless the trace's started
   and finished counts agree. When they do, the span is sampled, the buffer is written
   exactly as it stood and then emptied, and `Schedule` decides about flushing.
   */
  function Process(s: State, t: TraceState, span: Span): (r: (State, TraceState))
    ensures t.started != t.finished ==> r == (s, t)
    ensures t.started == t.finished ==>
      && r.1 == TraceState(t.started, t.finished, [])
      && r.0 == Schedule(s.(log := s.log + [Sampled(span), Written(t.spans)]))
  {
    if t.started != t.finished then (s, t)
    else (Schedule(s.(log := s.log + [Sampled(span), Written(t.spans)])), t.(spans := []))
  }

  /**
   The calls the flush callback makes to the sampler: `update(rate_by_service)`
   exactly when the flush settled without error and the result carries rates.
   */
  function RateFeedback(result: FlushResult): (evs: seq<Event>)
    ensures evs != [] <==> result.error.None? && result.rateByService.Some?
    ensures evs != [] ==> evs == [RatesUpdated(result.rateByService.value)]
  {
    if result.error.None? && result.rateByService.Some? then [RatesUpdated(result.rateByService.value)]
    else []
  }

  /**
   The writer settles its in-flight flush number `k` with `result`: rates are forwarded
   as `RateFeedback` says, and then that flush's `done`, if any, is called once.
   */
  function Settle(s: State, k: nat, result: FlushResult): (r: State)
    requires k < |s.pending|
    ensures r.timer == s.timer && r.flushInterval == s.flushInterval
    ensures r.pending == s.pending[..k] + s.pending[k + 1..]
    ensures multiset(r.pending) + multiset{s.pending[k]} == multiset(s.pending)
    ensures |r.log| >= |s.log| && r.log[..|s.log|] == s.log
    ensures s.pending[k].None? ==> r.log == s.log + RateFeedback(result)
    ensures s.pending[k].Some? ==> r.log == s.log + RateFeedback(result) + [DoneCalled(s.pending[k].value)]
  {
    var done := s.pending[k];
    assert s.pending == s.pending[..k] + [s.pending[k]] + s.pending[k + 1..];
    var calls := RateFeedback(result) + (if done.Some? then [DoneCalled(done.value)] else []);
    State(s.timer, s.flushInterval, s.log + calls, s.pending[..k] + s.pending[k + 1..])
  }

  /** configure(options): a given flushInterval replaces the configured one. */
  function Configure(s: State, options: Options): (r: State)
    ensures options.flushInterval.None? ==> r == s
    ensures options.flushInterval.Some? ==> r.flushInterval == options.flushInterval.value
    ensures r.timer == s.timer && r.log == s.log && r.pending == s.pending
  {
    s.(flushInterval := options.flushInterval.GetOr(s.flushInterval))
  }

  /**
   inject(span, format, carrier) with the propagator table `table`: an unknown format
   changes nothing; a known one samples the span and then lets the propagator write
   the carrier.
   */
  function Inject(s: State, table: map<string, Propagator>, format: string, span: Span, carrier: Fields): (r: (State, Fields))
    ensures format !in table ==> r.0 == s && r.1 == carrier
    ensures format in table ==>
      && r.0 == s.(log := s.log + [Sampled(span), Injected(format, span)])
      && r.1 == table[format].inject(span, carrier)
  {
    if format !in table then (s, carrier)
    else (s.(log := s.log + [Sampled(span), Injected(format, span)]), table[format].inject(span, carrier))
  }

  /** extract(format, carrier): no context for an unknown format, else the propagator's answer. */
  function Extract(table: map<string, Propagator>, format: string, carrier: Fields): (r: Option<SpanContext>)
    ensures format !in table ==> r == None
    ensures format in table ==> r == table[format].extract(carrier)
  {
    if format in table then table[format].extract(carrier) else None
  }

  /**
   startSpan for a span of trace `t`: the span joins the end of the buffer, the
   spans already buffered stay as they were, and the counters are the span's business.
   */
  function StartSpan(t: TraceState, span: Span): (r: TraceState)
    ensures |r.spans| == |t.spans| + 1 && r.spans[..|t.spans|] == t.spans && r.spans[|t.spans|] == span
    ensures r.started == t.started && r.finished == t.finished
  {
    t.(spans := t.spans + [span])
  }

  // ---------------------------------------------------------------------------
  // Runs

  /** The operations that change the scheduling state, as they arrive. */
  datatype Op =
    | Complete(trace: TraceState, span: Span)        // process(span), span of `trace`
    | ExplicitFlush(done: Option<Done>)              // flush(done) called by the application
    | TimerFires                                     // the armed timer calls flush()
    | WriterSettles(k: nat, result: FlushResult)     // the writer calls back flush number k
    | Reconfigure(options: Options)                  // configure(options)

  /** The timer can only fire when armed; the writer only settles flushes in flight. */
  predicate Enabled(s: State, op: Op) {
    match op
    case TimerFires => s.timer.Some?
    case WriterSettles(k, _) => k < |s.pending|
    case _ => true
  }

  function Step(s: State, op: Op): State
    requires Enabled(s, op)
  {
    match op
    case Complete(t, span) => Process(s, t, span).0
    case ExplicitFlush(done) => Flush(s, done)
    case TimerFires => Flush(s, None)
    case WriterSettles(k, result) => Settle(s, k, result)
    case Reconfigure(options) => Configure(s, options)
  }

  predicate ValidRun(s: State, ops: seq<Op>)
    decreases |ops|
  {
    ops == [] || (Enabled(s, ops[0]) && ValidRun(Step(s, ops[0]), ops[1..]))
  }

  function Run(s: State, ops: seq<Op>): State
    requires ValidRun(s, ops)
    decreases |ops|
  {
    if ops == [] then s else Run(Step(s, ops[0]), ops[1..])
  }

  /** How many of `ops` are explicit `flush` calls. */
  function FlushRequests(ops: seq<Op>): nat {
    if ops == [] then 0 else (if ops[0].ExplicitFlush? then 1 else 0) + FlushRequests(ops[1..])
  }

  /** How many of `ops` are explicit `flush` calls given the callback `d`. */
  function FlushRequestsWith(ops: seq<Op>, d: Done): nat {
    if ops == [] then 0 else (if ops[0] == ExplicitFlush(Some(d)) then 1 else 0) + FlushRequestsWith(ops[1..], d)
  }

  /** A `process` call that finds its trace finished. */
  predicate Completes(op: Op) {
    op.Complete? && op.trace.started == op.trace.finished
  }

  /** How many of `ops` are completing `process` calls. */
  function Completions(ops: seq<Op>): nat {
    if ops == [] then 0 else (if Completes(ops[0]) then 1 else 0) + Completions(ops[1..])
  }

  /** A `configure` call that leaves flushing manual. */
  predicate KeepsManual(op: Op) {
    op.Reconfigure? && op.options.flushInterval.Some? ==> op.options.flushInterval.value < 0
  }

  // ---------------------------------------------------------------------------
  // Properties of single steps

  /**
   The calls one `process` makes, in order, and the state it leaves, for each case of
   the trace's counters, the flush interval and the timer.
   */
  lemma ProcessLog(s: State, t: TraceState, span: Span)
    ensures var r := Process(s, t, span).0;
      && r.flushInterval == s.flushInterval
      && (t.started != t.finished ==> r == s)
      && (t.started == t.finished && s.flushInterval == 0 ==>
            && r.log == s.log + [Sampled(span), Written(t.spans), TimeoutCleared, WriterFlushed]
            && r.pending == s.pending + [None] && r.timer == None)
      && (t.started == t.finished && s.flushInterval > 0 && s.timer.None? ==>
            && r.log == s.log + [Sampled(span), Written(t.spans), TimeoutSet(s.flushInterval)]
            && r.pending == s.pending && r.timer == Some(Timer(s.flushInterval)))
      && (t.started == t.finished && (s.flushInterval < 0 || (s.flushInterval > 0 && s.timer.Some?)) ==>
            && r.log == s.log + [Sampled(span), Written(t.spans)]
            && r.pending == s.pending && r.timer == s.timer)
  {
    if t.started == t.finished {
      var w := [Sampled(span), Written(t.spans)];
      if s.flushInterval == 0 {
        assert s.log + w + [TimeoutCleared, WriterFlushed] == s.log + [Sampled(span), Written(t.spans), TimeoutCleared, WriterFlushed];
      } else if s.flushInterval > 0 && s.timer.None? {
        assert s.log + w + [TimeoutSet(s.flushInterval)] == s.log + [Sampled(span), Written(t.spans), TimeoutSet(s.flushInterval)];
      }
    }
  }

  /** Every step only appends to the log. */
  lemma StepExtendsLog(s: State, op: Op)
    requires Enabled(s, op)
    ensures |s.log| <= |Step(s, op).log| && Step(s, op).log[..|s.log|] == s.log
  {
    match op
    case Complete(t, span) =>
      ProcessLog(s, t, span);
    case _ =>
  }

  /** flush leaves no timer alive: its clearTimeout is the last timer call. */
  lemma FlushClearsTimers(s: State, done: Option<Done>)
    ensures LiveTimers(Flush(s, done).log) == 0
  {
    assert Flush(s, done).log == s.log + [TimeoutCleared] + [WriterFlushed];
    LiveTimersSnoc(s.log, TimeoutCleared);
    LiveTimersSnoc(s.log + [TimeoutCleared], WriterFlushed);
  }

  lemma ProcessKeepsTimerConsistent(s: State, t: TraceState, span: Span)
    requires TimerConsistent(s)
    ensures TimerConsistent(Process(s, t, span).0)
  {
    if t.started == t.finished {
      var w := s.(log := s.log + [Sampled(span), Written(t.spans)]);
      LiveTimersSnoc(s.log, Sampled(span));
      LiveTimersSnoc(s.log + [Sampled(span)], Written(t.spans));
      assert s.log + [Sampled(span)] + [Written(t.spans)] == w.log;
      if s.flushInterval == 0 {
        FlushClearsTimers(w, None);
      } else if s.flushInterval > 0 && s.timer.None? {
        LiveTimersSnoc(w.log, TimeoutSet(s.flushInterval));
      }
    }
  }

  lemma SettleKeepsTimerConsistent(s: State, k: nat, result: FlushResult)
    requires k < |s.pending| && TimerConsistent(s)
    ensures TimerConsistent(Settle(s, k, result))
  {
    var feedback := RateFeedback(result);
    var mid := s.log + feedback;
    if feedback == [] {
      assert mid == s.log;
    } else {
      LiveTimersSnoc(s.log, feedback[0]);
      assert mid == s.log + [feedback[0]];
    }
    assert LiveTimers(mid) == LiveTimers(s.log);
    if s.pending[k].Some? {
      LiveTimersSnoc(mid, DoneCalled(s.pending[k].value));
    }
  }

  /** inject's calls (a sample, a propagator write) leave the timers alone. */
  lemma InjectKeepsTimerConsistent(s: State, table: map<string, Propagator>, format: string, span: Span, carrier: Fields)
    requires TimerConsistent(s)
    ensures TimerConsistent(Inject(s, table, format, span, carrier).0)
  {
    if format in table {
      LiveTimersSnoc(s.log, Sampled(span));
      LiveTimersSnoc(s.log + [Sampled(span)], Injected(format, span));
      assert s.log + [Sampled(span)] + [Injected(format, span)] == s.log + [Sampled(span), Injected(format, span)];
    }
  }

  /** Every step keeps at most one live timer, and it is the one the tracer holds. */
  lemma StepKeepsTimerConsistent(s: State, op: Op)
    requires Enabled(s, op) && TimerConsistent(s)
    ensures TimerConsistent(Step(s, op))
  {
    match op
    case Complete(t, span) => ProcessKeepsTimerConsistent(s, t, span);
    case ExplicitFlush(done) => FlushClearsTimers(s, done);
    case TimerFires => FlushClearsTimers(s, None);
    case WriterSettles(k, result) => SettleKeepsTimerConsistent(s, k, result);
    case Reconfigure(options) =>
  }

  lemma ProcessDoneAccounting(s: State, t: TraceState, span: Span, d: Done)
    ensures multiset(Process(s, t, span).0.log)[DoneCalled(d)] == multiset(s.log)[DoneCalled(d)]
    ensures multiset(Process(s, t, span).0.pending)[Some(d)] == multiset(s.pending)[Some(d)]
  {
    ProcessLog(s, t, span);
  }

  lemma SettleDoneAccounting(s: State, k: nat, result: FlushResult, d: Done)
    requires k < |s.pending|
    ensures multiset(Settle(s, k, result).log)[DoneCalled(d)] + multiset(Settle(s, k, result).pending)[Some(d)]
         == multiset(s.log)[DoneCalled(d)] + multiset(s.pending)[Some(d)]
  {
    var r := Settle(s, k, result);
    assert multiset(r.pending)[Some(d)] + multiset{s.pending[k]}[Some(d)] == multiset(s.pending)[Some(d)];
    var feedback := RateFeedback(result);
    assert DoneCalled(d) !in feedback;
  }

  /** The `done` callbacks still owed plus those already called only grow by explicit flushes. */
  lemma StepDoneAccounting(s: State, op: Op, d: Done)
    requires Enabled(s, op)
    ensures multiset(Step(s, op).log)[DoneCalled(d)] + multiset(Step(s, op).pending)[Some(d)]
         == multiset(s.log)[DoneCalled(d)] + multiset(s.pending)[Some(d)]
            + (if op == ExplicitFlush(Some(d)) then 1 else 0)
  {
    match op
    case Complete(t, span) => ProcessDoneAccounting(s, t, span, d);
    case WriterSettles(k, result) => SettleDoneAccounting(s, k, result, d);
    case _ =>
  }

  /** Settling a writer flush only updates rates and calls `done`. */
  lemma SettleCalls(s: State, k: nat, result: FlushResult, d: int)
    requires k < |s.pending|
    ensures multiset(Settle(s, k, result).log)[TimeoutSet(d)] == multiset(s.log)[TimeoutSet(d)]
    ensures multiset(Settle(s, k, result).log)[WriterFlushed] == multiset(s.log)[WriterFlushed]
  {
    var feedback := RateFeedback(result);
    assert TimeoutSet(d) !in feedback && WriterFlushed !in feedback;
  }

  /** One step under manual flushing: no timer, and a writer flush only for `flush` itself. */
  lemma StepManual(s: State, op: Op, d: int)
    requires Enabled(s, op) && KeepsManual(op)
    requires s.flushInterval < 0 && s.timer.None?
    ensures Step(s, op).timer.None? && Step(s, op).flushInterval < 0
    ensures multiset(Step(s, op).log)[TimeoutSet(d)] == multiset(s.log)[TimeoutSet(d)]
    ensures multiset(Step(s, op).log)[WriterFlushed]
         == multiset(s.log)[WriterFlushed] + (if op.ExplicitFlush? then 1 else 0)
  {
    match op
    case Complete(t, span) => ProcessLog(s, t, span);
    case WriterSettles(k, result) => SettleCalls(s, k, result, d);
    case _ =>
  }

  /** One completion under a positive interval: a timer is armed only if none was. */
  lemma StepCoalesces(s: State, op: Op, d: int)
    requires op.Complete? && s.flushInterval > 0
    ensures Step(s, op).flushInterval == s.flushInterval
    ensures Step(s, op).timer == if s.timer.None? && Completes(op) then Some(Timer(s.flushInterval)) else s.timer
    ensures multiset(Step(s, op).log)[TimeoutSet(d)] == multiset(s.log)[TimeoutSet(d)]
      + (if d == s.flushInterval && s.timer.None? && Completes(op) then 1 else 0)
    ensures multiset(Step(s, op).log)[WriterFlushed] == multiset(s.log)[WriterFlushed]
  {
    ProcessLog(s, op.trace, op.span);
  }

  /** One completion under a zero interval: the write is flushed at once. */
  lemma StepFlushesAtOnce(s: State, op: Op, d: int)
    requires op.Complete? && s.flushInterval == 0
    ensures Step(s, op).flushInterval == 0
    ensures Step(s, op).timer == if Completes(op) then None else s.timer
    ensures multiset(Step(s, op).log)[WriterFlushed]
         == multiset(s.log)[WriterFlushed] + (if Completes(op) then 1 else 0)
    ensures multiset(Step(s, op).log)[TimeoutSet(d)] == multiset(s.log)[TimeoutSet(d)]
  {
    ProcessLog(s, op.trace, op.span);
  }

  // ---------------------------------------------------------------------------
  // Properties of runs

  /** Along any run, the log only grows. */
  lemma {:induction false} RunExtendsLog(s: State, ops: seq<Op>)
    requires ValidRun(s, ops)
    ensures |s.log| <= |Run(s, ops).log| && Run(s, ops).log[..|s.log|] == s.log
    decreases |ops|
  {
    if ops != [] {
      var s1 := Step(s, ops[0]);
      StepExtendsLog(s, ops[0]);
      RunExtendsLog(s1, ops[1..]);
      assert Run(s, ops).log[..|s1.log|][..|s.log|] == Run(s, ops).log[..|s.log|];
    }
  }

  /** At most one timer is ever alive, and it is exactly the one the tracer holds. */
  lemma {:induction false} RunKeepsTimerConsistent(s: State, ops: seq<Op>)
    requires ValidRun(s, ops) && TimerConsistent(s)
    ensures TimerConsistent(Run(s, ops))
    ensures LiveTimers(Run(s, ops).log) <= 1
    decreases |ops|
  {
    if ops != [] {
      StepKeepsTimerConsistent(s, ops[0]);
      RunKeepsTimerConsistent(Step(s, ops[0]), ops[1..]);
    }
  }

  /**
   With a negative flush interval that stays negative, no timer is ever armed and
   the writer flushes exactly as often as the application calls `flush`.
   */
  lemma {:induction false} ManualFlushingOnly(s: State, ops: seq<Op>, d: int)
    requires ValidRun(s, ops)
    requires s.flushInterval < 0 && s.timer.None?
    requires forall op | op in ops :: KeepsManual(op)
    ensures Run(s, ops).timer.None? && Run(s, ops).flushInterval < 0
    ensures multiset(Run(s, ops).log)[TimeoutSet(d)] == multiset(s.log)[TimeoutSet(d)]
    ensures multiset(Run(s, ops).log)[WriterFlushed] == multiset(s.log)[WriterFlushed] + FlushRequests(ops)
    decreases |ops|
  {
    if ops != [] {
      assert ops[0] in ops;
      StepManual(s, ops[0], d);
      assert forall op | op in ops[1..] :: op in ops;
      ManualFlushingOnly(Step(s, ops[0]), ops[1..], d);
    }
  }

  /**
   With a positive flush interval, any number of trace completions arm at most one
   timer, with that interval as its delay, and one only if none was armed; none of
   them flushes the writer.
   */
  lemma {:induction false} CompletionsCoalesce(s: State, ops: seq<Op>, d: int)
    requires ValidRun(s, ops)
    requires s.flushInterval > 0
    requires forall op | op in ops :: op.Complete?
    ensures Run(s, ops).timer ==
      if s.timer.None? && Completions(ops) > 0 then Some(Timer(s.flushInterval)) else s.timer
    ensures multiset(Run(s, ops).log)[TimeoutSet(d)] == multiset(s.log)[TimeoutSet(d)]
      + (if d == s.flushInterval && s.timer.None? && Completions(ops) > 0 then 1 else 0)
    ensures multiset(Run(s, ops).log)[WriterFlushed] == multiset(s.log)[WriterFlushed]
    decreases |ops|
  {
    if ops != [] {
      assert ops[0] in ops;
      StepCoalesces(s, ops[0], d);
      assert forall op | op in ops[1..] :: op in ops;
      CompletionsCoalesce(Step(s, ops[0]), ops[1..], d);
    }
  }

  /**
   With a zero flush interval, every completion is followed by its own writer flush,
   no timer is ever armed, and a completion leaves no timer behind.
   */
  lemma {:induction false} ImmediateFlushes(s: State, ops: seq<Op>, d: int)
    requires ValidRun(s, ops)
    requires s.flushInterval == 0
    requires forall op | op in ops :: op.Complete?
    ensures Run(s, ops).timer == if Completions(ops) > 0 then None else s.timer
    ensures multiset(Run(s, ops).log)[WriterFlushed] == multiset(s.log)[WriterFlushed] + Completions(ops)
    ensures multiset(Run(s, ops).log)[TimeoutSet(d)] == multiset(s.log)[TimeoutSet(d)]
    decreases |ops|
  {
    if ops != [] {
      assert ops[0] in ops;
      StepFlushesAtOnce(s, ops[0], d);
      assert forall op | op in ops[1..] :: op in ops;
      ImmediateFlushes(Step(s, ops[0]), ops[1..], d);
    }
  }

  /** Every `done` passed to `flush` is either still owed or has been called, once. */
  lemma {:induction false} DoneAccounting(s: State, ops: seq<Op>, d: Done)
    requires ValidRun(s, ops)
    ensures multiset(Run(s, ops).log)[DoneCalled(d)] + multiset(Run(s, ops).pending)[Some(d)]
         == multiset(s.log)[DoneCalled(d)] + multiset(s.pending)[Some(d)] + FlushRequestsWith(ops, d)
    decreases |ops|
  {
    if ops != [] {
      StepDoneAccounting(s, ops[0], d);
      DoneAccounting(Step(s, ops[0]), ops[1..], d);
    }
  }

  /**
   A `done` handed to a single `flush` is called exactly once by the time the writer
   has settled that flush, whatever the results were.
   */
  lemma DoneCalledExactlyOnce(s: State, ops: seq<Op>, d: Done)
    requires ValidRun(s, ops)
    requires DoneCalled(d) !in s.log && Some(d) !in s.pending
    requires FlushRequestsWith(ops, d) == 1
    requires Some(d) !in Run(s, ops).pending
    ensures multiset(Run(s, ops).log)[DoneCalled(d)] == 1
  {
    DoneAccounting(s, ops, d);
  }

  // ---------------------------------------------------------------------------
  // One trace through its life

  /** What happens to one trace: a span of it starts, or a span of it finishes. */
  datatype TraceOp =
    | Begin(span: Span)                                  // startSpan
    | Finish(span: Span, started: nat, finished: nat)    // the span's counters, then process(span)

  function TraceStep(s: State, t: TraceState, op: TraceOp): (State, TraceState) {
    match op
    case Begin(span) => (s, StartSpan(t, span))
    case Finish(span, started, finished) => Process(s, t.(started := started, finished := finished), span)
  }

  function TraceRun(s: State, t: TraceState, ops: seq<TraceOp>): (State, TraceState)
    decreases |ops|
  {
    if ops == [] then (s, t)
    else
      var next := TraceStep(s, t, ops[0]);
      TraceRun(next.0, next.1, ops[1..])
  }

  /** The spans started by `ops`, in order. */
  function Begun(ops: seq<TraceOp>): seq<Span> {
    if ops == [] then [] else (if ops[0].Begin? then [ops[0].span] else []) + Begun(ops[1..])
  }

  /** The batches one step of a trace hands to the writer. */
  function StepBatches(t: TraceState, op: TraceOp): seq<seq<Span>> {
    if op.Finish? && op.started == op.finished then [t.spans] else []
  }

  lemma BatchesCons(e: Event, rest: seq<Event>)
    ensures Batches([e] + rest) == (if e.Written? then [e.spans] else []) + Batches(rest)
  {
    assert ([e] + rest)[1..] == rest;
  }

  /** The calls of a completing process contain one write: of the buffer. */
  lemma BatchesOfCompletion(span: Span, spans: seq<Span>, rest: seq<Event>)
    requires Batches(rest) == []
    ensures Batches([Sampled(span), Written(spans)] + rest) == [spans]
  {
    assert [Sampled(span), Written(spans)] + rest == [Sampled(span)] + ([Written(spans)] + rest);
    BatchesCons(Sampled(span), [Written(spans)] + rest);
    BatchesCons(Written(spans), rest);
  }

  /** The calls `Schedule` adds write nothing. */
  lemma ScheduleWritesNothing(s: State)
    ensures Batches(Schedule(s).log) == Batches(s.log)
  {
    var rest: seq<Event> :=
      if s.flushInterval == 0 then [TimeoutCleared, WriterFlushed]
      else if s.flushInterval > 0 && s.timer.None? then [TimeoutSet(s.flushInterval)]
      else [];
    assert Schedule(s).log == s.log + rest;
    BatchesCons(WriterFlushed, []);
    BatchesCons(TimeoutCleared, [WriterFlushed]);
    BatchesCons(TimeoutSet(s.flushInterval), []);
    assert [TimeoutCleared] + [WriterFlushed] == [TimeoutCleared, WriterFlushed];
    assert [TimeoutSet(s.flushInterval)] + [] == [TimeoutSet(s.flushInterval)];
    BatchesAppend(s.log, rest);
  }

  /** process writes the buffer exactly when it finds the trace finished. */
  lemma ProcessBatches(s: State, t: TraceState, span: Span)
    ensures Batches(Process(s, t, span).0.log) ==
      Batches(s.log) + (if t.started == t.finished then [t.spans] else [])
  {
    if t.started == t.finished {
      var w := s.(log := s.log + [Sampled(span), Written(t.spans)]);
      BatchesAppend(s.log, [Sampled(span), Written(t.spans)]);
      assert [Sampled(span), Written(t.spans)] + [] == [Sampled(span), Written(t.spans)];
      BatchesOfCompletion(span, t.spans, []);
      ScheduleWritesNothing(w);
    } else {
      assert Batches(s.log) + [] == Batches(s.log);
    }
  }

  /** One step of a trace: what it writes, followed by the new buffer, is the old buffer and what it started. */
  lemma TraceStepBatches(s: State, t: TraceState, op: TraceOp)
    ensures Batches(TraceStep(s, t, op).0.log) == Batches(s.log) + StepBatches(t, op)
    ensures Flatten(StepBatches(t, op)) + TraceStep(s, t, op).1.spans
         == t.spans + (if op.Begin? then [op.span] else [])
  {
    match op {
      case Begin(span) =>
        assert Batches(s.log) + [] == Batches(s.log);
      case Finish(span, started, finished) =>
        var tf := t.(started := started, finished := finished);
        ProcessBatches(s, tf, span);
        if started == finished {
          assert [t.spans][1..] == [];
          assert Flatten([t.spans]) == t.spans;
        }
    }
  }

  /** Dropping a known prefix of a sequence of batches. */
  lemma DropKnownPrefix(b: seq<seq<Span>>, p: seq<seq<Span>>, x: seq<seq<Span>>)
    requires |p| + |x| <= |b| && b[..|p| + |x|] == p + x
    ensures b[..|p|] == p
    ensures b[|p|..] == x + b[|p| + |x|..]
  {
    assert b[..|p|] == b[..|p| + |x|][..|p|];
    assert b == b[..|p| + |x|] + b[|p| + |x|..];
  }

  /** What a step writes and buffers, then what the rest of the run writes and buffers. */
  lemma FlattenThen(x: seq<seq<Span>>, y: seq<seq<Span>>, spans0: seq<Span>, spans1: seq<Span>,
                    spans2: seq<Span>, started: seq<Span>, later: seq<Span>)
    requires Flatten(x) + spans1 == spans0 + started
    requires Flatten(y) + spans2 == spans1 + later
    ensures Flatten(x + y) + spans2 == spans0 + (started + later)
  {
    FlattenAppend(x, y);
    var fx, fy := Flatten(x), Flatten(y);
    calc {
      Flatten(x + y) + spans2;
      (fx + fy) + spans2;
      fx + (fy + spans2);
      fx + (spans1 + later);
      (fx + spans1) + later;
      (spans0 + started) + later;
    }
  }

  /** The batch algebra of one step of a trace followed by the rest of its run. */
  lemma ChainBatches(b0: seq<seq<Span>>, x: seq<seq<Span>>, b2: seq<seq<Span>>,
                     spans0: seq<Span>, spans1: seq<Span>, spans2: seq<Span>,
                     started: seq<Span>, later: seq<Span>)
    requires Flatten(x) + spans1 == spans0 + started
    requires |b0 + x| <= |b2| && b2[..|b0 + x|] == b0 + x
    requires Flatten(b2[|b0 + x|..]) + spans2 == spans1 + later
    ensures |b0| <= |b2| && b2[..|b0|] == b0
    ensures Flatten(b2[|b0|..]) + spans2 == spans0 + (started + later)
  {
    DropKnownPrefix(b2, b0, x);
    FlattenThen(x, b2[|b0| + |x|..], spans0, spans1, spans2, started, later);
  }

  /**
   Every span started in a trace is handed to the writer at most once and in start
   order: the batches written so far, followed by the buffer, are exactly the spans
   that were buffered or started.
   */
  lemma {:induction false} EverySpanWrittenOnce(s: State, t: TraceState, ops: seq<TraceOp>)
    ensures |Batches(s.log)| <= |Batches(TraceRun(s, t, ops).0.log)|
    ensures Batches(TraceRun(s, t, ops).0.log)[..|Batches(s.log)|] == Batches(s.log)
    ensures Flatten(Batches(TraceRun(s, t, ops).0.log)[|Batches(s.log)|..]) + TraceRun(s, t, ops).1.spans
         == t.spans + Begun(ops)
    decreases |ops|
  {
    var b0 := Batches(s.log);
    if ops == [] {
      assert b0[|b0|..] == [];
    } else {
      var st1 := TraceStep(s, t, ops[0]);
      var st2 := TraceRun(st1.0, st1.1, ops[1..]);
      assert st2 == TraceRun(s, t, ops);
      TraceStepBatches(s, t, ops[0]);
      EverySpanWrittenOnce(st1.0, st1.1, ops[1..]);
      var started := if ops[0].Begin? then [ops[0].span] else [];
      assert Begun(ops) == started + Begun(ops[1..]);
      ChainBatches(b0, StepBatches(t, ops[0]), Batches(st2.0.log),
                   t.spans, st1.1.spans, st2.1.spans, started, Begun(ops[1..]));
    }
  }
}
