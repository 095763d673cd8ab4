/** Value types shared by the dispatch core, the behaviours and the caching
    library: runtime type tags, boxed values, exceptions, messages with their
    capability markers, and the observable trace a pipeline run produces. */
module Kernel {

  datatype Option<+T> = None | Some(value: T)

  /** A runtime type: its namespace and its short name (`Type.Name`). */
  datatype TypeTag = TypeTag(namespace: string, name: string)

  const UnitTag: TypeTag := TypeTag("Micro.CQRS.Core", "Unit")
  /** The marker interfaces `IMessage` and `IStreamMessage`, and `object`. An
      object's runtime type is a class, never one of the two interfaces. */
  const IMessageTag: TypeTag := TypeTag("Micro.CQRS.Core", "IMessage")
  const IStreamMessageTag: TypeTag := TypeTag("Micro.CQRS.Core", "IStreamMessage")
  const ObjectTag: TypeTag := TypeTag("System", "Object")

  /** An object reference: null, or a boxed value of some runtime type. */
  datatype Value = Null | Boxed(runtimeType: TypeTag, payload: int)

  /** The exceptions the core raises or lets through. `Raised` stands for any
      exception thrown by a handler or by an external collaborator. */
  datatype Exception =
    | Raised(exceptionType: TypeTag, text: string)
    | ValidationException(errorMessage: string)
    | InvalidOperation(reason: string)
    | InvalidCast(fromType: string, toType: string)
    | ArgumentError(paramName: string)
    | ArgumentOutOfRange(paramName: string)
    | ArgumentNull(paramName: string)
    | ObjectDisposed
    | OperationCanceled
    | BrokenCircuit

  /** `Exception.Message` */
  function MessageOf(e: Exception): string
  {
    match e
    case Raised(_, text) => text
    case ValidationException(m) => m
    case InvalidOperation(reason) => reason
    case InvalidCast(f, t) => "Unable to cast object of type '" + f + "' to type '" + t + "'."
    case ArgumentError(p) => "Value cannot be null or empty. (Parameter '" + p + "')"
    case ArgumentNull(p) => "Value cannot be null. (Parameter '" + p + "')"
    case ArgumentOutOfRange(p) => "Specified argument was out of the range of valid values. (Parameter '" + p + "')"
    case ObjectDisposed => "Cannot access a disposed object."
    case OperationCanceled => "The operation was canceled."
    case BrokenCircuit => "The circuit is now open and is not allowing calls."
  }

  /** What awaiting a task yields: its result, or the exception it faulted with. */
  datatype Outcome = Ok(value: Value) | Fault(error: Exception)

  /** Capability markers a message may carry (`ICacheable`, `IRetryable`,
      `ICircuitBreakerConfigurable`, `ITransactional`). */
  datatype Cacheable = Cacheable(cacheKey: string, cacheDurationSeconds: int)
  datatype Retryable = Retryable(retryCount: int, isRetryableException: Exception -> bool)
  datatype BreakerSettings = BreakerSettings(exceptionsAllowedBeforeBreaking: int, breakDurationInSeconds: int)

  datatype Message = Message(
    runtimeType: TypeTag,
    payload: int,
    cacheable: Option<Cacheable>,
    retryable: Option<Retryable>,
    breaker: Option<BreakerSettings>,
    transactional: bool)
  {
    /** `typeof(TMessage).Name` */
    function TypeName(): string { runtimeType.name }
  }

  /** Observable effects of a pipeline run: log lines, span operations,
      performance-tracker calls, retry and breaker notifications, transaction steps and handler invocations. */
  datatype Event =
    | LogHandling(messageType: string, payload: Option<int>)
    | LogHandled(messageType: string)
    | LogFailed(messageType: string, error: Exception)
    | SpanStarted(spanName: string)
    | SpanTagged(key: string, tagValue: string)
    | SpanFailed(description: string)
    | SpanEnded
    | TrackingStarted(trackedName: string)
    | TrackingStopped(trackedName: string)
    | CacheHitLogged(key: string)
    | CacheMissLogged(key: string)
    | RetryScheduled(attempt: nat, delaySeconds: nat)
    | BreakerOpened(breakerKey: string, breakSeconds: nat)
    | BreakerHalfOpened(breakerKey: string)
    | BreakerReset(breakerKey: string)
    | TxBegun
    | TxCommitted
    | TxRolledBack
    | TxDisposed
    | HandlerInvoked(handledType: string)

  /** The result of running (part of) a pipeline: what the awaited task yields
      and the events it produced, in order. */
  datatype Run = Run(outcome: Outcome, trace: seq<Event>)

  /** The remainder of the pipeline handed to a behaviour. */
  type Next = Message -> Run

  /** `char.IsWhiteSpace` */
  predicate IsWhiteSpace(c: char)
  {
    ('\U{0009}' <= c <= '\U{000D}') || c == ' ' || c == '\U{0085}' || c == '\U{00A0}' || c == '\U{1680}'
    || ('\U{2000}' <= c <= '\U{200A}') || c == '\U{2028}' || c == '\U{2029}' || c == '\U{202F}'
    || c == '\U{205F}' || c == '\U{3000}'
  }
}
