/** `LoggingPipelineBehavior.Handle`: logs entry with the payload, calls the
    rest of the pipeline once, then logs success or the error and rethrows. */
module LoggingPipelineBehavior {
  import opened Kernel

  function Handle(m: Message, next: Next): (r: Run)
    ensures r.outcome == next(m).outcome
    ensures |r.trace| == |next(m).trace| + 2
    ensures r.trace[0] == LogHandling(m.TypeName(), Some(m.payload))
    ensures r.trace[1..|r.trace| - 1] == next(m).trace
    ensures r.trace[|r.trace| - 1] ==
              if next(m).outcome.Ok? then LogHandled(m.TypeName())
              else LogFailed(m.TypeName(), next(m).outcome.error)
  {
    var inner := next(m);
    var exit := match inner.outcome
                case Ok(_) => LogHandled(m.TypeName())
                case Fault(e) => LogFailed(m.TypeName(), e);
    Run(inner.outcome, [LogHandling(m.TypeName(), Some(m.payload))] + inner.trace + [exit])
  }
}

/** `LoggingBehavior.Handle`: logs "Handling", calls the rest of the pipeline
    once, then logs the elapsed time on success or the error before
    rethrowing. Elapsed times are not modelled. */
module LoggingBehavior {
  import opened Kernel

  function Handle(m: Message, next: Next): (r: Run)
    ensures r.outcome == next(m).outcome
    ensures |r.trace| == |next(m).trace| + 2
    ensures r.trace[0] == LogHandling(m.TypeName(), None)
    ensures r.trace[1..|r.trace| - 1] == next(m).trace
    ensures r.trace[|r.trace| - 1] == LogHandled(m.TypeName()) <==> next(m).outcome.Ok?
    ensures next(m).outcome.Fault? ==> r.trace[|r.trace| - 1] == LogFailed(m.TypeName(), next(m).outcome.error)
  {
    var inner := next(m);
    if inner.outcome.Ok? then
      Run(inner.outcome, [LogHandling(m.TypeName(), None)] + inner.trace + [LogHandled(m.TypeName())])
    else
      Run(inner.outcome, [LogHandling(m.TypeName(), None)] + inner.trace + [LogFailed(m.TypeName(), inner.outcome.error)])
  }
}

/** `TracingPipelineBehavior.Handle`: a span named after the message type is
    opened around the call when a listener creates one (`activity` is not
    null); it is tagged with the type name, marked failed with the
    exception's message on a fault, and disposed on every path. */
module TracingPipelineBehavior {
  import opened Kernel

  function SpanName(m: Message): string
  {
    "Handle " + m.TypeName()
  }

  function Handle(m: Message, next: Next, spanCreated: bool): (r: Run)
    ensures r.outcome == next(m).outcome
    ensures !spanCreated ==> r.trace == next(m).trace
    ensures spanCreated ==>
              && |r.trace| >= |next(m).trace| + 3
              && r.trace[0] == SpanStarted(SpanName(m))
              && r.trace[1] == SpanTagged("message.type", m.TypeName())
              && r.trace[2..2 + |next(m).trace|] == next(m).trace
              && r.trace[|r.trace| - 1] == SpanEnded
    ensures spanCreated ==> (|r.trace| == |next(m).trace| + 4 <==> next(m).outcome.Fault?)
    ensures spanCreated && next(m).outcome.Fault? ==>
              r.trace[|r.trace| - 2] == SpanFailed(MessageOf(next(m).outcome.error))
  {
    var inner := next(m);
    if !spanCreated then inner
    else
      var failed := if inner.outcome.Fault? then [SpanFailed(MessageOf(inner.outcome.error))] else [];
      Run(inner.outcome,
          [SpanStarted(SpanName(m)), SpanTagged("message.type", m.TypeName())] + inner.trace + failed + [SpanEnded])
  }
}

/** `PipelineMiddlewares.Handle`: `StartTracking(name)` before the call and
    `StopTracking(name)` after it, on success and on failure alike. */
module PipelineMiddlewares {
  import opened Kernel

  function Handle(m: Message, next: Next): (r: Run)
    ensures r.outcome == next(m).outcome
    ensures r.trace == [TrackingStarted(m.TypeName())] + next(m).trace + [TrackingStopped(m.TypeName())]
    ensures multiset(r.trace)[TrackingStarted(m.TypeName())] == multiset(next(m).trace)[TrackingStarted(m.TypeName())] + 1
    ensures multiset(r.trace)[TrackingStopped(m.TypeName())] == multiset(next(m).trace)[TrackingStopped(m.TypeName())] + 1
  {
    var name := m.TypeName();
    var inner := next(m);
    Run(inner.outcome, [TrackingStarted(name)] + inner.trace + [TrackingStopped(name)])
  }
}

/** `ValidationBehavior.Handle`: every registered validator runs on the
    request; if any result is not `ValidationResult.Success` the first failing
    result's message is thrown as a `ValidationException` before anything
    inner runs. */
module ValidationBehavior {
  import opened Kernel

  /** What one validator's `ValidateAsync` yields. */
  datatype ValidatorResult = Success | Failure(errorMessage: string)

  /** The message of the first failure in validator order, if any. */
  function FirstFailure(results: seq<ValidatorResult>): (r: Option<string>)
    ensures r.None? <==> forall i :: 0 <= i < |results| ==> results[i].Success?
    ensures r.Some? ==> exists i :: 0 <= i < |results| && results[i] == Failure(r.value)
                                      && forall j :: 0 <= j < i ==> results[j].Success?
  {
    if results == [] then None
    else if results[0].Failure? then Some(results[0].errorMessage)
    else
      var rest := FirstFailure(results[1..]);
      if rest.Some? then
        ghost var i :| 0 <= i < |results[1..]| && results[1..][i] == Failure(rest.value)
                       && forall j :: 0 <= j < i ==> results[1..][j].Success?;
        assert results[i + 1] == Failure(rest.value);
        rest
      else rest
  }

  /** `results` are the results of the registered validators, in order. */
  function Handle(m: Message, next: Next, results: seq<ValidatorResult>): (r: Run)
    ensures results == [] ==> r == next(m)
    ensures (forall i :: 0 <= i < |results| ==> results[i].Success?) ==> r == next(m)
    ensures (exists i :: 0 <= i < |results| && results[i].Failure?) ==>
              && r.trace == []
              && r.outcome.Fault? && r.outcome.error.ValidationException?
              && exists i :: 0 <= i < |results| && results[i] == Failure(r.outcome.error.errorMessage)
                                && forall j :: 0 <= j < i ==> results[j].Success?
  {
    if |results| == 0 then next(m)
    else
      match FirstFailure(results)
      case Some(msg) => Run(Fault(ValidationException(msg)), [])
      case None => next(m)
  }
}
