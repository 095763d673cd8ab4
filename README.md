# Micro building blocks — a Dafny model

This project models the core of the Micro building blocks, a .NET library set
for CQRS services:

- **The channel mediator** (`Micro.CQRS`). Commands and queries are queued as
  envelopes. One consumer loop drains them in order: it resolves the handler
  registered for the message and response types, casts the registered
  pipeline behaviours to the erased interface, composes them around the
  handler (the first registered is outermost), runs the pipeline and sets the
  envelope's completion. As written the cast fails for every concrete
  message type, so any registered behaviour faults the command (see
  "## Findings"); the intended composition is modelled beside it. Stream requests go through a
  second loop. It forwards the items whose runtime type is exactly the
  requested one and always completes the output channel.
- **The pipeline behaviours.**
  - Logging, tracing and performance tracking only observe.
  - Validation throws on the first failing validator.
  - Caching serves a hit, or stores a successful miss.
  - Retry is a bounded retry with an exception predicate and 2^n-second waits.
  - The circuit breaker is kept in a shared store keyed by the message type's
    short name.
  - Transaction is begin, then commit or rollback, then dispose.
- **Registration.** `AddChannelMediator` scans handler assemblies and
  registers the six default behaviours. The pipeline registry keeps one
  configuration per message type and registers behaviour types.
- **The hybrid cache** (`Micro.Caching`).
  - Layers are sorted by `Order`. Reads stop at the first layer that answers;
    writes, removals and region clears go to every available layer.
  - A layer that throws costs one recorded error and is skipped.
  - Pattern-based cache policies are merged into the options.
  - Diagnostics counters are kept alongside.
- **The Dapper helpers** (`Micro.Dapper`).
  - Column-to-property mapping, exact name first, then PascalCase.
  - The command-type guess and the parameter naming and output rules.
  - Output-parameter reads, and `Execute`'s open/close discipline.
- **The domain blocks** (`Micro.Domain`).
  - Entity equality by runtime type and key.
  - Aggregate roots' domain-event lists.
  - Validation results, and the exception that snapshots their errors.

**How the model is built.**
- Each behaviour's `next` is a function from the message to a `Run`: the
  outcome its task yields, plus the observable events (log lines, span
  operations, tracker calls, retry and breaker notifications, transaction
  steps).
- Pure code is modelled as functions and lemmas.
- Code that changes state is modelled as classes with `modifies` clauses.
  Each such method is tied to a specification function, and the properties
  are proved about that function.
- External collaborators become parameters or abstract stores: the service
  provider, cache layers, the database, the Polly library and the clock.
- One module per source component, plus `Kernel` for shared value types.

## Model

| member | source | states |
|---|---|---|
| UnitStruct.Equals | src/BuildingBlocks/Micro.CQRS/Core/Unit.cs:9 | any two `Unit` values are equal |
| UnitStruct.EqualsObject | src/BuildingBlocks/Micro.CQRS/Core/Unit.cs:10 | true exactly for a boxed `Unit`; false for null and for any other runtime type |
| UnitStruct.GetHashCode | src/BuildingBlocks/Micro.CQRS/Core/Unit.cs:11 | the hash is always 0 |
| UnitStruct.ToString | src/BuildingBlocks/Micro.CQRS/Core/Unit.cs:12 | the text is always "()" |
| UnitStruct.OpEquals | src/BuildingBlocks/Micro.CQRS/Core/Unit.cs:14 | `==` is always true |
| UnitStruct.OpNotEquals | src/BuildingBlocks/Micro.CQRS/Core/Unit.cs:15 | `!=` is always false, the negation of `==` |
| UnitStruct.EqualityContract | src/BuildingBlocks/Micro.CQRS/Core/Unit.cs:9-15 | `Equals` and `==` agree, equal values hash alike, and `Unit.Value` boxed equals any `Unit` |
| LoggingPipelineBehavior.Handle | src/BuildingBlocks/Micro.CQRS/Core/LoggingPipelineBehavior.cs:15-35 | the outcome of `next` passes through unchanged; the trace is an entry log with the payload, then `next`'s events, then a success log or the error log for the rethrown exception |
| LoggingBehavior.Handle | src/BuildingBlocks/Micro.CQRS/Core/LoggingBehavior.cs:17-38 | the outcome passes through unchanged; an entry log without payload comes first, then `next`'s events; the last event is the handled log exactly when `next` succeeded, otherwise the error log with its exception |
| TracingPipelineBehavior.Handle | src/BuildingBlocks/Micro.CQRS/Core/TracingPipelineBehavior.cs:10-27 | the outcome passes through; with no span the trace is `next`'s own; with a span it is started, tagged with the message type, wraps `next`'s events, is marked failed with the exception message exactly on a fault, and is always ended |
| PipelineMiddlewares.Handle | src/BuildingBlocks/Micro.CQRS/Core/PipelineMiddlewares.cs:12-28 | the outcome passes through; tracking of the type name is started before and stopped after `next`, on success and on fault alike, so starts and stops stay paired |
| ValidationBehavior.FirstFailure | src/BuildingBlocks/Micro.CQRS/Core/ValidationBehavior.cs:25-29 | none exactly when every validator succeeded; otherwise the message of the first failure in validator order |
| ValidationBehavior.Handle | src/BuildingBlocks/Micro.CQRS/Core/ValidationBehavior.cs:16-31 | with no validators, or only successes, the result is `next`'s; with any failure `next` does not run and a `ValidationException` carries the first failure's message |
| PipelineComposition.AggregateReverse | src/BuildingBlocks/Micro.CQRS/Core/Mediator.cs:209-217 | folding the reversed behaviour list over the handler equals nesting the list with the first behaviour outermost |
| PipelineComposition.ComposePipeline | src/BuildingBlocks/Micro.CQRS/Core/Mediator.cs:214-219 | the reverse-then-fold composition nests the behaviours first-outermost; with no behaviours it is the handler itself |
| PipelineComposition.CastAll | src/BuildingBlocks/Micro.CQRS/Core/Mediator.cs:209-212 | the cast succeeds exactly when every resolved behaviour converts to the erased interface, and then keeps the list unchanged |
| PipelineComposition.CreatePipeline | src/BuildingBlocks/Micro.CQRS/Core/Mediator.cs:205-239 | both `CreatePipeline` and `CreateStreamPipeline`: the pipeline exists exactly when every behaviour survives the cast, and it is then the first-outermost nesting |
| PipelineComposition.LayersOfNest | src/BuildingBlocks/Micro.CQRS/Core/Mediator.cs:214-219 | the layers of the composed pipeline, from the outside in, are the behaviours in registration order |
| PipelineComposition.InstrumentedOrder | src/BuildingBlocks/Micro.CQRS/Core/Mediator.cs:214-219 | behaviours are entered in registration order, the handler runs once, and they are left in reverse order |
| MediatorDispatch.TransparentPipelineKeepsOutcome | src/BuildingBlocks/Micro.CQRS/Core/Mediator.cs:214-219 | a pipeline of behaviours that hand back `next`'s outcome yields exactly the handler's outcome |
| MediatorDispatch.ObserversAreTransparent | src/BuildingBlocks/Micro.CQRS/Core/LoggingPipelineBehavior.cs:15-35 | the logging and performance-tracking behaviours are transparent, so a pipeline of them yields the handler's outcome |
| MediatorDispatch.AwaitTask | src/BuildingBlocks/Micro.CQRS/Core/Mediator.cs:178-184 | a faulted task rethrows; a `Unit` response yields `Unit.Value`; a null task result throws `InvalidOperationException`; a success is never null |
| MediatorDispatch.HandlerDelegate | src/BuildingBlocks/Micro.CQRS/Core/Mediator.cs:160-176 | the handler delegate logs one invocation, passes a faulted task's exception through, and never succeeds with null |
| MediatorDispatch.Dispatch | src/BuildingBlocks/Micro.CQRS/Core/Mediator.cs:117-128 | one command iteration as written: with no behaviours, behaviours that convert, or no handler it is the intended dispatch; with a handler and behaviours that do not convert it faults with `InvalidCastException` and nothing runs |
| MediatorDispatch.IntendedDispatch | src/BuildingBlocks/Micro.CQRS/Core/Mediator.cs:117-122 | the dispatch the loop evidently intends: with a handler and no behaviours the result is the handler's awaited result |
| MediatorDispatch.BehaviorsMakeDispatchFault | src/BuildingBlocks/Micro.CQRS/Core/Mediator.cs:209-212 | for a concrete message type, any registered behaviour makes the command fault with the cast exception, even where the intended dispatch succeeds |
| MediatorDispatch.DispatchAgreesWithoutBehaviors | src/BuildingBlocks/Micro.CQRS/Core/Mediator.cs:117-128 | with no behaviours registered the as-written and the intended dispatch agree |
| MediatorDispatch.Resolution | src/BuildingBlocks/Micro.CQRS/Core/Mediator.cs:122-126 | the completion is set, never left pending, and it succeeds exactly when the pipeline succeeded |
| MediatorDispatch.DispatchBareHandler | src/BuildingBlocks/Micro.CQRS/Core/Mediator.cs:117-128 | with no registered handler the envelope faults and nothing runs; with a handler and no behaviours the result is the handler's awaited result |
| MediatorDispatch.DispatchThroughTransparentPipeline | src/BuildingBlocks/Micro.CQRS/Core/Mediator.cs:117-122 | in the intended dispatch, with only transparent behaviours the envelope's result is the handler's awaited result |
| MediatorDispatch.CommandStep | src/BuildingBlocks/Micro.CQRS/Core/Mediator.cs:115-128 | handling one more envelope sets its slot, appends its ticket to the processing order, and logs its fault if any |
| MediatorDispatch.EachEnvelopeResolvedOnce | src/BuildingBlocks/Micro.CQRS/Core/Mediator.cs:115-129 | every envelope's completion is set to its own pipeline's result or exception; every other slot is left alone; no slot is invented |
| MediatorDispatch.ForwardedExactlyMatching | src/BuildingBlocks/Micro.CQRS/Core/Mediator.cs:141-147 | an item is forwarded exactly when it was produced and its runtime type equals the requested type; null is never forwarded |
| MediatorDispatch.ForwardedKeepsOrder | src/BuildingBlocks/Micro.CQRS/Core/Mediator.cs:141-147 | forwarding distributes over concatenation, so the producer's order is kept |
| MediatorDispatch.Forwarded | src/BuildingBlocks/Micro.CQRS/Core/Mediator.cs:141-147 | every forwarded item has exactly the requested runtime type, and no more items are forwarded than produced |
| MediatorDispatch.StreamStep | src/BuildingBlocks/Micro.CQRS/Core/Mediator.cs:134-157 | handling one more stream request fills and completes its own channel and logs its fault if any |
| MediatorDispatch.StreamDispatch | src/BuildingBlocks/Micro.CQRS/Core/Mediator.cs:136-157 | one stream iteration as written: with no stream behaviours, behaviours that convert, or no handler it is the intended run; otherwise no item and the cast exception |
| MediatorDispatch.IntendedStreamDispatch | src/BuildingBlocks/Micro.CQRS/Core/Mediator.cs:136-147 | the intended stream run: without behaviours it is the handler's stream; without a handler no item and the missing-service exception |
| MediatorDispatch.StreamBehaviorsMakeDispatchFault | src/BuildingBlocks/Micro.CQRS/Core/Mediator.cs:227-229 | for a concrete stream message type, any registered stream behaviour makes the stream end with the cast exception and no item; with none it is the handler's stream |
| MediatorDispatch.EveryChannelCompleted | src/BuildingBlocks/Micro.CQRS/Core/Mediator.cs:132-158 | every handled request's channel ends completed, holding exactly the matching items, whether or not the stream faulted |
| MediatorDispatch.StreamedLeavesOthers | src/BuildingBlocks/Micro.CQRS/Core/Mediator.cs:132-158 | channels of requests not in the queue are untouched |
| MediatorDispatch.Publish | src/BuildingBlocks/Micro.CQRS/Core/Mediator.cs:88-96 | no exception exactly when every event handler succeeds; otherwise the first fault in handler order |
| MediatorDispatch.Forward | src/BuildingBlocks/Micro.CQRS/Core/Mediator.cs:141-147 | the loop appends exactly the matching items, in order, to the output channel |
| MediatorDispatch.Mediator.constructor | src/BuildingBlocks/Micro.CQRS/Core/Mediator.cs:34-60 | both queues, the completion slots and the output channels start empty |
| MediatorDispatch.Mediator.Send | src/BuildingBlocks/Micro.CQRS/Core/Mediator.cs:62-72 | a fresh ticket with a pending completion; the envelope joins the back of the command queue; nothing else changes |
| MediatorDispatch.Mediator.SendUnit | src/BuildingBlocks/Micro.CQRS/Core/Mediator.cs:74-79 | the void `Send` is `Send` with the `Unit` response type |
| MediatorDispatch.Mediator.Query | src/BuildingBlocks/Micro.CQRS/Core/Mediator.cs:81-86 | a query goes through the same command queue as `Send` |
| MediatorDispatch.Mediator.CreateStream | src/BuildingBlocks/Micro.CQRS/Core/Mediator.cs:98-111 | a fresh, empty, open output channel; the envelope joins the back of the stream queue |
| MediatorDispatch.Mediator.ProcessFrontCommand | src/BuildingBlocks/Micro.CQRS/Core/Mediator.cs:117-128 | the front envelope leaves the queue and its slot is set from its pipeline's outcome; a fault is logged |
| MediatorDispatch.Mediator.ProcessCommands | src/BuildingBlocks/Micro.CQRS/Core/Mediator.cs:113-130 | the queue is drained in order; each envelope's slot holds its own result or exception; the processing order is the queue order; faults are logged in order |
| MediatorDispatch.Mediator.ProcessFrontStream | src/BuildingBlocks/Micro.CQRS/Core/Mediator.cs:136-156 | the front request's channel receives its matching items and is completed; a fault is logged and swallowed |
| MediatorDispatch.Mediator.ProcessStreams | src/BuildingBlocks/Micro.CQRS/Core/Mediator.cs:132-158 | the stream queue is drained; each channel ends completed holding exactly its matching items; faults are logged in order |
| RetryPolicyPipelineBehavior.Backoff | src/BuildingBlocks/Micro.CQRS/Core/RetryPolicyPipelineBehavior.cs:31 | the wait before a retry is at least one second |
| RetryPolicyPipelineBehavior.BackoffDoubles | src/BuildingBlocks/Micro.CQRS/Core/RetryPolicyPipelineBehavior.cs:31 | the first wait is 2 seconds and each wait doubles the previous one |
| RetryPolicyPipelineBehavior.Calls | src/BuildingBlocks/Micro.CQRS/Core/RetryPolicyPipelineBehavior.cs:27-30 | the policy calls `next` at least once and at most `RetryCount + 1` times |
| RetryPolicyPipelineBehavior.From | src/BuildingBlocks/Micro.CQRS/Core/RetryPolicyPipelineBehavior.cs:27-43 | the first invocation's events begin the policy's trace; once the retry count is reached the invocation's run is final |
| RetryPolicyPipelineBehavior.FromStep | src/BuildingBlocks/Micro.CQRS/Core/RetryPolicyPipelineBehavior.cs:27-41 | a retryable failure schedules the next attempt with its backoff and costs one more call |
| RetryPolicyPipelineBehavior.LastInvocationDecides | src/BuildingBlocks/Micro.CQRS/Core/RetryPolicyPipelineBehavior.cs:27-43 | the outcome is that of the last call, unwrapped; every earlier call failed retryably and the last did not |
| RetryPolicyPipelineBehavior.StopsAtFirstSuccessOrFatal | src/BuildingBlocks/Micro.CQRS/Core/RetryPolicyPipelineBehavior.cs:27-43 | the first success, or the first failure the predicate rejects, ends the loop with that outcome |
| RetryPolicyPipelineBehavior.ExhaustionSurfacesLastFault | src/BuildingBlocks/Micro.CQRS/Core/RetryPolicyPipelineBehavior.cs:27-43 | when every call fails retryably there are `RetryCount + 1` calls and the last exception surfaces |
| RetryPolicyPipelineBehavior.RunPolicy | src/BuildingBlocks/Micro.CQRS/Core/RetryPolicyPipelineBehavior.cs:43 | the attempt loop computes the policy's run and call count; its waits are 2, 4, 8, … seconds |
| RetryPolicyPipelineBehavior.Handle | src/BuildingBlocks/Micro.CQRS/Core/RetryPolicyPipelineBehavior.cs:17-44 | a non-retryable message calls `next` once; a negative retry count is refused; otherwise the outcome is the last call's, after at most `RetryCount + 1` calls with doubling waits |
| CircuitBreakerPipelineBehavior.Create | src/BuildingBlocks/Micro.CQRS/Core/CircuitBreakerPipelineBehavior.cs:32-36 | a closed breaker with the message's threshold and break duration; non-positive thresholds and negative durations are refused |
| CircuitBreakerPipelineBehavior.Record | src/BuildingBlocks/Micro.CQRS/Core/CircuitBreakerPipelineBehavior.cs:32-36 | a success resets the count; a failure opens the circuit for the break duration once the consecutive count reaches the threshold, or at once after a trial call |
| CircuitBreakerPipelineBehavior.Admits | src/BuildingBlocks/Micro.CQRS/Core/CircuitBreakerPipelineBehavior.cs:32-36 | a closed circuit admits every call; an open one refuses every call before it reopens |
| CircuitBreakerPipelineBehavior.FailuresStayClosed | src/BuildingBlocks/Micro.CQRS/Core/CircuitBreakerPipelineBehavior.cs:35 | fewer failures than the threshold only raise the count |
| CircuitBreakerPipelineBehavior.ThresholdOpensCircuit | src/BuildingBlocks/Micro.CQRS/Core/CircuitBreakerPipelineBehavior.cs:35-36 | below the threshold the circuit stays closed; exactly the threshold opens it until now plus the break |
| CircuitBreakerPipelineBehavior.OpenRefusesUntilBreakEnds | src/BuildingBlocks/Micro.CQRS/Core/CircuitBreakerPipelineBehavior.cs:36 | an opened circuit refuses exactly the calls before its break ends |
| CircuitBreakerPipelineBehavior.Notifications | src/BuildingBlocks/Micro.CQRS/Core/CircuitBreakerPipelineBehavior.cs:37-56 | a half-open notice before a trial call, and after the call a break or reset notice, around the call's own events |
| CircuitBreakerPipelineBehavior.Step | src/BuildingBlocks/Micro.CQRS/Core/CircuitBreakerPipelineBehavior.cs:20-59 | without the marker, `next` as is; otherwise the store gains at most this type name's breaker, other breakers are untouched, and the outcome is `next`'s, a broken-circuit refusal or the factory's argument error; when the breaker in use admits the call, the store holds that breaker updated by the call's success or failure, and the response is `next`'s outcome inside the breaker's notifications |
| CircuitBreakerPipelineBehavior.InUse | src/BuildingBlocks/Micro.CQRS/Core/CircuitBreakerPipelineBehavior.cs:30-36 | the breaker stored for the type name, else the one the factory makes from the message's settings |
| CircuitBreakerPipelineBehavior.RepeatedFailuresAreFailures | src/BuildingBlocks/Micro.CQRS/Core/CircuitBreakerPipelineBehavior.cs:20-59 | `n` calls whose handler fails leave the stored breaker as `n` consecutive admitted failures do, refused calls changing nothing |
| CircuitBreakerPipelineBehavior.ThresholdFailingCallsOpenCircuit | src/BuildingBlocks/Micro.CQRS/Core/CircuitBreakerPipelineBehavior.cs:30-58 | from a store without the breaker, `ExceptionsAllowedBeforeBreaking` failing calls open the circuit for the break duration, and the next call within it is refused without running the handler |
| CircuitBreakerPipelineBehavior.FirstSettingsWin | src/BuildingBlocks/Micro.CQRS/Core/CircuitBreakerPipelineBehavior.cs:30-31 | a later message with the same short type name uses the breaker the first one configured |
| CircuitBreakerPipelineBehavior.AdmittedCallsPassThrough | src/BuildingBlocks/Micro.CQRS/Core/CircuitBreakerPipelineBehavior.cs:58 | an admitted call returns `next`'s outcome; a refused one does not run `next` and fails with a broken circuit |
| CircuitBreakerPipelineBehavior.BreakerStore.constructor | src/BuildingBlocks/Micro.CQRS/Core/CircuitBreakerPipelineBehavior.cs:9 | the shared store starts empty |
| CircuitBreakerPipelineBehavior.BreakerStore.GetOrAdd | src/BuildingBlocks/Micro.CQRS/Core/CircuitBreakerPipelineBehavior.cs:30-56 | an existing breaker is returned untouched; otherwise the factory runs and its breaker is stored, and a factory that throws stores nothing |
| CircuitBreakerPipelineBehavior.BreakerStore.Handle | src/BuildingBlocks/Micro.CQRS/Core/CircuitBreakerPipelineBehavior.cs:20-59 | the response and the new store are those of `Step` |
| CachingPipelineBehavior.Lookup | src/BuildingBlocks/Micro.CQRS/Core/CachingPipelineBehavior.cs:30 | a stored key yields its value; a missing key yields null, or the default for a value-type response |
| CachingPipelineBehavior.NotCacheablePassesThrough | src/BuildingBlocks/Micro.CQRS/Core/CachingPipelineBehavior.cs:24-27 | a message without the marker goes to `next` and the store is untouched |
| CachingPipelineBehavior.HitOrMiss | src/BuildingBlocks/Micro.CQRS/Core/CachingPipelineBehavior.cs:29-47 | a hit returns the cached value without running `next` or writing; a miss runs `next` once and stores its response with the duration exactly when it succeeded |
| CachingPipelineBehavior.Step | src/BuildingBlocks/Micro.CQRS/Core/CachingPipelineBehavior.cs:19-48 | a call never removes a cached entry, and changes none but the one under the message's own cache key |
| CachingPipelineBehavior.ValueTypeNeverReachesNext | src/BuildingBlocks/Micro.CQRS/Core/CachingPipelineBehavior.cs:30-36 | for a value-type response the lookup is never null, so `next` never runs and nothing is stored |
| CachingPipelineBehavior.StoredResponseIsServed | src/BuildingBlocks/Micro.CQRS/Core/CachingPipelineBehavior.cs:29-47 | a successful response stored on a miss is what the next request with the same key gets, without running `next` |
| CachingPipelineBehavior.CacheProvider.constructor | src/BuildingBlocks/Micro.CQRS/Core/PipelineMiddlewares.cs:32-36 | the provider's store starts empty |
| CachingPipelineBehavior.CacheProvider.Get | src/BuildingBlocks/Micro.CQRS/Core/PipelineMiddlewares.cs:34 | a stored key yields its value; a missing key yields null for a reference type and a non-null zero for a value type |
| CachingPipelineBehavior.CacheProvider.Set | src/BuildingBlocks/Micro.CQRS/Core/PipelineMiddlewares.cs:35 | the key now holds the value with its duration; other keys are untouched |
| CachingPipelineBehavior.Handle | src/BuildingBlocks/Micro.CQRS/Core/CachingPipelineBehavior.cs:19-48 | the response and the new store are those of the one-call specification |
| TransactionPipelineBehavior.Handle | src/BuildingBlocks/Micro.CQRS/Core/TransactionPipelineBehavior.cs:20-46 | non-transactional messages pass through; a failing begin runs nothing; otherwise begin, `next`, then commit on success or rollback on any fault of `next` or the commit, with dispose last on every path; the result succeeds exactly when `next` and the commit do |
| ServiceCollectionExtensions.IsHandlerInterface | src/BuildingBlocks/Micro.CQRS/Extensions.cs:45-54 | a non-generic type is never a handler interface; a generic one is exactly when its definition is one of the four handler interfaces, never a behaviour interface |
| ServiceCollectionExtensions.InterfaceRegistrations | src/BuildingBlocks/Micro.CQRS/Extensions.cs:38-41 | every registration the inner loop makes is transient, for the scanned type, under a handler interface; at most one per interface |
| ServiceCollectionExtensions.HandlerRegistrations | src/BuildingBlocks/Micro.CQRS/Extensions.cs:30-43 | every registration made for an assembly is transient and under a handler interface |
| ServiceCollectionExtensions.InterfaceRegistrationsExact | src/BuildingBlocks/Micro.CQRS/Extensions.cs:38-41 | a registration is made for a type exactly for each handler interface it implements, as transient |
| ServiceCollectionExtensions.HandlerRegistrationsExact | src/BuildingBlocks/Micro.CQRS/Extensions.cs:30-43 | an assembly contributes exactly one transient registration per handler interface of each of its types, and nothing else |
| ServiceCollectionExtensions.BehaviorRegistrations | src/BuildingBlocks/Micro.CQRS/Extensions.cs:56-68 | one open-generic transient `IPipelineBehavior` registration per listed behaviour, in order |
| ServiceCollectionExtensions.ResolvedBehaviorsOfDefaults | src/BuildingBlocks/Micro.CQRS/Extensions.cs:56-68 | resolving behaviours from those registrations yields the listed behaviours in order |
| ServiceCollectionExtensions.NoBehaviorsFromHandlers | src/BuildingBlocks/Micro.CQRS/Extensions.cs:30-43 | handler scanning never registers a pipeline behaviour |
| ServiceCollectionExtensions.ServiceCollection.AddTransient | src/BuildingBlocks/Micro.CQRS/Extensions.cs:40 | one transient registration is appended |
| ServiceCollectionExtensions.ServiceCollection.AddSingleton | src/BuildingBlocks/Micro.CQRS/Extensions.cs:17-18 | one singleton registration is appended |
| ServiceCollectionExtensions.MediatorOptions.constructor | src/BuildingBlocks/Micro.CQRS/Extensions.cs:71-73 | no assemblies to scan at first |
| ServiceCollectionExtensions.MediatorOptions.AddAssembly | src/BuildingBlocks/Micro.CQRS/Extensions.cs:75-79 | the assembly is appended and the same options object is returned |
| ServiceCollectionExtensions.MediatorOptions.AddAssemblyOf | src/BuildingBlocks/Micro.CQRS/Extensions.cs:81-85 | the type's assembly is appended and the same options object is returned |
| ServiceCollectionExtensions.RegisterHandlers | src/BuildingBlocks/Micro.CQRS/Extensions.cs:30-43 | the loops append exactly the assembly's handler registrations, in order |
| ServiceCollectionExtensions.RegisterPipelineBehaviors | src/BuildingBlocks/Micro.CQRS/Extensions.cs:56-68 | the six defaults are appended: Logging, Validation, Caching, Retry, CircuitBreaker, Transaction |
| ServiceCollectionExtensions.AddChannelMediator | src/BuildingBlocks/Micro.CQRS/Extensions.cs:11-28 | the registry and mediator singletons, then every configured assembly's handlers, then the six behaviours; the same collection is returned |
| ServiceCollectionExtensions.DefaultResolvedBehaviors | src/BuildingBlocks/Micro.CQRS/Extensions.cs:11-28 | whatever the scanned assemblies hold, the resolved behaviours are the six defaults in registration order |
| ServiceCollectionExtensions.DefaultPipelineOrder | src/BuildingBlocks/Micro.CQRS/Extensions.cs:56-68 | composed as intended, the default pipeline has Logging outermost and Transaction next to the handler |
| ServiceCollectionExtensions.CloseBehaviors | src/BuildingBlocks/Micro.CQRS/Extensions.cs:56-68 | closing the six open behaviours over a message and response type keeps their order and makes each closed over exactly those two |
| ServiceCollectionExtensions.DefaultPipelineNeverCreated | src/BuildingBlocks/Micro.CQRS/Core/Mediator.cs:209-212 | for any concrete message type the six default behaviours never survive the cast, so no pipeline is created |
| ServiceCollectionExtensions.SendAfterAddChannelMediatorFaults | src/BuildingBlocks/Micro.CQRS/Extensions.cs:11-28 | after `AddChannelMediator`, when the behaviours handed to the mediator are the instances activated for the six default registrations closed over the command's types, every command with a registered handler faults with the cast exception (activation of the behaviours' own dependencies is taken to succeed) |
| PipelineRegistryCore.PipelineConfiguration.constructor | src/BuildingBlocks/Micro.CQRS/Core/IPipelineRegistry.cs:14-18 | no behaviour types, and the command-pipeline type |
| PipelineRegistryCore.RegisterOne | src/BuildingBlocks/Micro.CQRS/Core/IPipelineRegistry.cs:50-73 | one iteration adds at most one transient registration, for the type itself, and keeps the earlier ones; a concrete type is registered afterwards |
| PipelineRegistryCore.Registered | src/BuildingBlocks/Micro.CQRS/Core/IPipelineRegistry.cs:48-73 | registering behaviour types only appends; existing registrations are kept |
| PipelineRegistryCore.CountServicePositive | src/BuildingBlocks/Micro.CQRS/Core/IPipelineRegistry.cs:67 | a service is registered exactly when its registration count is positive |
| PipelineRegistryCore.ConcreteRegisteredOnce | src/BuildingBlocks/Micro.CQRS/Core/IPipelineRegistry.cs:64-71 | a concrete behaviour type is added only when none is registered yet, so it ends registered once however often it is listed |
| PipelineRegistryCore.OpenBehaviorReAdded | src/BuildingBlocks/Micro.CQRS/Core/IPipelineRegistry.cs:52-58 | an open generic type that passes the `IPipelineBehavior<,>` test is appended once per listing, with no duplicate check; under .NET's own answer only the interface definition itself passes (see Findings) |
| PipelineRegistryCore.OpenBehaviorClassesDropped | src/BuildingBlocks/Micro.CQRS/Core/IPipelineRegistry.cs:52-63 | as written, with `IsAssignableFrom` answered as .NET does, a list of open behaviour class definitions registers nothing |
| PipelineRegistryCore.OpenBehaviorClassesRegistered | src/BuildingBlocks/Micro.CQRS/Core/IPipelineRegistry.cs:52-58 | with the intended implements test, listing the default behaviour classes registers each under `IPipelineBehavior<,>` in list order, as `AddChannelMediator` does |
| PipelineRegistryCore.PipelineRegistry.constructor | src/BuildingBlocks/Micro.CQRS/Core/IPipelineRegistry.cs:25-28 | no configurations, over the given service collection |
| PipelineRegistryCore.PipelineRegistry.GetConfiguration | src/BuildingBlocks/Micro.CQRS/Core/IPipelineRegistry.cs:30-33 | the stored configuration, or a fresh default one that is stored first |
| PipelineRegistryCore.PipelineRegistry.RegisterBehaviorTypes | src/BuildingBlocks/Micro.CQRS/Core/IPipelineRegistry.cs:48-73 | the registrations become those of the specification fold over the listed types |
| PipelineRegistryCore.PipelineRegistry.ConfigurePipeline | src/BuildingBlocks/Micro.CQRS/Core/IPipelineRegistry.cs:35-40 | the type's configuration becomes the callback's update of the stored one (a fresh default on first use), so changes accumulate over calls; its whole list is registered again, and every other type's configuration is unchanged |
| PipelineRegistryCore.PipelineRegistry.ConfigurePipelineOf | src/BuildingBlocks/Micro.CQRS/Core/IPipelineRegistry.cs:42-46 | the generic overload behaves as `ConfigurePipeline(typeof(TMessage), …)` |
| CachePolicies.LiteralGlob | src/BuildingBlocks/Micro.Caching/CachePolicyManager.cs:72-77 | a pattern without wildcards matches only itself |
| CachePolicies.LiteralPatternMatchesItself | src/BuildingBlocks/Micro.Caching/CachePolicyManager.cs:66-83 | a literal pattern matches the key equal to it, or that key plus a final line feed, and nothing else |
| CachePolicies.StarGlob | src/BuildingBlocks/Micro.Caching/CachePolicyManager.cs:72-75 | the translated `.*` matches exactly the keys without a line feed |
| CachePolicies.PrefixStarGlob | src/BuildingBlocks/Micro.Caching/CachePolicyManager.cs:72-77 | `prefix*` matches exactly the keys that start with the prefix and have no line feed after it |
| CachePolicies.StarMatchesEveryKey | src/BuildingBlocks/Micro.Caching/CachePolicyManager.cs:68 | the pattern "*" matches every key, even those the regular expression would reject |
| CachePolicies.Glob | src/BuildingBlocks/Micro.Caching/CachePolicyManager.cs:72-77 | a line feed in the key is matched only by a line feed in the pattern: wildcards never match one |
| CachePolicies.MatchesPattern | src/BuildingBlocks/Micro.Caching/CachePolicyManager.cs:66-83 | a pattern other than "*" without a line feed matches only keys with no line feed before the last character |
| CachePolicies.Selects | src/BuildingBlocks/Micro.Caching/CachePolicyManager.cs:37-56 | the selected policy is the default or one of the registered policies |
| CachePolicies.CachePolicyManager.constructor | src/BuildingBlocks/Micro.Caching/CachePolicyManager.cs:10 | no policies at first |
| CachePolicies.CachePolicyManager.SetPolicy | src/BuildingBlocks/Micro.Caching/CachePolicyManager.cs:18-35 | a blank pattern is refused with `ArgumentException` and nothing changes; otherwise the pattern's policy is added or replaced |
| CachePolicies.CachePolicyManager.RemovePolicy | src/BuildingBlocks/Micro.Caching/CachePolicyManager.cs:58-64 | a blank pattern is ignored; otherwise only that pattern is removed |
| CachePolicies.CachePolicyManager.GetPolicy | src/BuildingBlocks/Micro.Caching/CachePolicyManager.cs:37-56 | the default for a blank key or a key no pattern matches; otherwise a matching pattern's policy whose priority no matching pattern exceeds |
| CacheDiagnosticsCounters.SumHitsIncrement | src/BuildingBlocks/Micro.Caching/CacheDiagnostics.cs:21 | crediting one hit to a layer raises the sum of layer hits by one |
| CacheDiagnosticsCounters.Apply | src/BuildingBlocks/Micro.Caching/CacheDiagnostics.cs:17-43 | one `Record*` call: total requests grow by one exactly for a hit or miss, exactly one counter grows by one, and no counter or layer count decreases |
| CacheDiagnosticsCounters.ApplyKeepsConsistent | src/BuildingBlocks/Micro.Caching/CacheDiagnostics.cs:17-43 | every `Record*` call keeps total = hits + misses and the layer counts summing to the hits |
| CacheDiagnosticsCounters.ReplayCounts | src/BuildingBlocks/Micro.Caching/CacheDiagnostics.cs:17-43 | since the last reset each counter counts its own records, and a layer's count is the hits credited to it (absent when none) |
| CacheDiagnosticsCounters.CacheDiagnostics.constructor | src/BuildingBlocks/Micro.Caching/CacheDiagnostics.cs:8-15 | every counter starts at zero with no layer counts |
| CacheDiagnosticsCounters.CacheDiagnostics.RecordHit | src/BuildingBlocks/Micro.Caching/CacheDiagnostics.cs:17-22 | one more request, one more hit and one more hit for the layer |
| CacheDiagnosticsCounters.CacheDiagnostics.RecordMiss | src/BuildingBlocks/Micro.Caching/CacheDiagnostics.cs:24-28 | one more request and one more miss |
| CacheDiagnosticsCounters.CacheDiagnostics.RecordFallback | src/BuildingBlocks/Micro.Caching/CacheDiagnostics.cs:30-33 | one more fallback only |
| CacheDiagnosticsCounters.CacheDiagnostics.RecordError | src/BuildingBlocks/Micro.Caching/CacheDiagnostics.cs:35-38 | one more error only |
| CacheDiagnosticsCounters.CacheDiagnostics.RecordStampedePrevention | src/BuildingBlocks/Micro.Caching/CacheDiagnostics.cs:40-43 | one more stampede prevention only |
| CacheDiagnosticsCounters.CacheDiagnostics.GetStats | src/BuildingBlocks/Micro.Caching/CacheDiagnostics.cs:45-62 | the current counters and a copy of the layer map, with total = hits + misses |
| CacheDiagnosticsCounters.CacheDiagnostics.Reset | src/BuildingBlocks/Micro.Caching/CacheDiagnostics.cs:64-76 | every counter back to zero and no layer counts |
| HybridCaching.Insert | src/BuildingBlocks/Micro.Caching/HybridCache.cs:23 | inserting a layer keeps every layer and adds one |
| HybridCaching.InsertKeepsSorted | src/BuildingBlocks/Micro.Caching/HybridCache.cs:23 | inserting into a list sorted by `Order` keeps it sorted |
| HybridCaching.InsertIsStable | src/BuildingBlocks/Micro.Caching/HybridCache.cs:23 | inserting a layer puts it after every layer of the same order, leaving the others' relative order |
| HybridCaching.SortByOrder | src/BuildingBlocks/Micro.Caching/HybridCache.cs:23 | the layers sorted by ascending `Order`, a permutation of the given ones, with layers of equal order in registration order (a stable sort) |
| HybridCaching.DefaultOf | src/BuildingBlocks/Micro.Caching/HybridCache.cs:253 | `default(T)` is null exactly for a reference type |
| HybridCaching.LayerGet | src/BuildingBlocks/Micro.Caching/MemoryCacheLayer.cs:22-29 | a layer read yields the stored value when it is a `T`, otherwise `default(T)` |
| HybridCaching.FirstAnswering | src/BuildingBlocks/Micro.Caching/HybridCache.cs:245-265 | the first layer, in order, that is available, does not throw and whose read is non-null; none when no layer does |
| HybridCaching.ValueTypeAnsweredByFirstUsable | src/BuildingBlocks/Micro.Caching/HybridCache.cs:245-265 | for a value type every usable layer answers (its default is never null), so the first usable layer answers, with the stored value or zero, and the factory never runs while one exists |
| HybridCaching.FirstReporting | src/BuildingBlocks/Micro.Caching/HybridCache.cs:163-179 | the first available, non-throwing layer that reports the key; none when no layer does |
| HybridCaching.FirstUsable | src/BuildingBlocks/Micro.Caching/HybridCache.cs:269-274 | the first layer that takes writes |
| HybridCaching.SetAll | src/BuildingBlocks/Micro.Caching/HybridCache.cs:267-282 | each layer takes the write if it is available and does not throw; others are unchanged |
| HybridCaching.RemoveAll | src/BuildingBlocks/Micro.Caching/HybridCache.cs:118-130 | each usable layer drops the key |
| HybridCaching.ClearAll | src/BuildingBlocks/Micro.Caching/HybridCache.cs:193-205 | each usable layer clears the region |
| HybridCaching.SetThenLookup | src/BuildingBlocks/Micro.Caching/HybridCache.cs:267-282 | after a value of the read type is written everywhere, the read is answered by the first layer that took the write, with that value |
| HybridCaching.SetLeavesOtherKeys | src/BuildingBlocks/Micro.Caching/HybridCache.cs:267-282 | writing one key leaves every other key's lookup and existence check as they were |
| HybridCaching.RemoveThenAbsent | src/BuildingBlocks/Micro.Caching/HybridCache.cs:113-131 | after a removal no layer reports the key, no layer answers a reference-type read, and a value-type read is answered with zero |
| HybridCaching.ClearRegionDropsPrefixedKeys | src/BuildingBlocks/Micro.Caching/HybridCache.cs:188-206 | layers that support regions and took the call lose exactly the keys with the prefix; other keys' lookups are unchanged |
| HybridCaching.MergeWithPolicy | src/BuildingBlocks/Micro.Caching/HybridCache.cs:284-295 | each expiration is the option's when given, else the policy's memory or sliding expiration (the `??`); no options and the default policy give empty options; the region comes from the options only |
| HybridCaching.AbsentOptionsFollowPolicy | src/BuildingBlocks/Micro.Caching/HybridCache.cs:289-294 | without options the merged expirations are the policy's memory and sliding ones |
| HybridCaching.MergeIgnoresSkipFlags | src/BuildingBlocks/Micro.Caching/HybridCache.cs:284-295 | the merged options depend on the policy only through its two expirations |
| HybridCaching.HybridCache.constructor | src/BuildingBlocks/Micro.Caching/HybridCache.cs:16-28 | the layers sorted by `Order` (a permutation of the given ones), no key locks, not disposed |
| HybridCaching.HybridCache.TryGetFromLayers | src/BuildingBlocks/Micro.Caching/HybridCache.cs:245-265 | the first answering layer and its non-null read, or `default(T)`; each throwing layer passed costs one error |
| HybridCaching.HybridCache.SetInLayers | src/BuildingBlocks/Micro.Caching/HybridCache.cs:267-282 | every usable layer stores the entry; each throwing layer costs one error |
| HybridCaching.HybridCache.GetOrCreate | src/BuildingBlocks/Micro.Caching/HybridCache.cs:30-85 | disposed or empty key throws first; a hit returns the layer's read (for a value type the first usable layer always hits) and records a hit; a miss records a miss, runs the factory, stores its value with the merged options, or records an error unless cancelled and rethrows; the key's lock is released |
| HybridCaching.HybridCache.CreateOnMiss | src/BuildingBlocks/Micro.Caching/HybridCache.cs:52-84 | under the key's lock the layers are asked again, then the factory's value is stored everywhere or its failure costs one error unless cancelled; the lock is removed |
| HybridCaching.HybridCache.Get | src/BuildingBlocks/Micro.Caching/HybridCache.cs:87-101 | disposed or empty key throws; otherwise the first answering layer's read and a hit for it, or `default(T)` and a miss |
| HybridCaching.HybridCache.Set | src/BuildingBlocks/Micro.Caching/HybridCache.cs:103-111 | disposed or empty key throws; otherwise every usable layer stores the value with the options merged with the key's policy |
| HybridCaching.HybridCache.Remove | src/BuildingBlocks/Micro.Caching/HybridCache.cs:113-131 | disposed or empty key throws; otherwise every usable layer drops the key and each throwing layer costs one error |
| HybridCaching.HybridCache.RemoveFromLayers | src/BuildingBlocks/Micro.Caching/HybridCache.cs:118-130 | the loop's result is `RemoveAll`, with one error per throwing layer |
| HybridCaching.HybridCache.Exists | src/BuildingBlocks/Micro.Caching/HybridCache.cs:158-180 | disposed or empty key throws; otherwise true exactly when some usable layer reports the key, stopping there; throwing layers passed cost one error each |
| HybridCaching.HybridCache.ClearRegion | src/BuildingBlocks/Micro.Caching/HybridCache.cs:188-206 | disposed or empty prefix throws; otherwise every usable layer clears the region |
| HybridCaching.HybridCache.ClearRegionInLayers | src/BuildingBlocks/Micro.Caching/HybridCache.cs:193-205 | the loop's result is `ClearAll`, with one error per throwing layer |
| HybridCaching.HybridCache.GetStats | src/BuildingBlocks/Micro.Caching/HybridCache.cs:182-186 | disposed throws; otherwise exactly the diagnostics' seven counters, with total = hits + misses |
| HybridCaching.HybridCache.Dispose | src/BuildingBlocks/Micro.Caching/HybridCache.cs:226-241 | idempotent: the first call marks the cache disposed, drops the key locks and disposes the layers; a second call changes nothing |
| DapperHelpers.Parts | src/BuildingBlocks/Micro.Dapper/DbHelpers.cs:402 | the pieces are non-empty and hold no underscore |
| DapperHelpers.PartsConcat | src/BuildingBlocks/Micro.Dapper/DbHelpers.cs:402 | the pieces, put back together, are the input without its underscores |
| DapperHelpers.ToPascalCase | src/BuildingBlocks/Micro.Dapper/DbHelpers.cs:398-404 | the PascalCase form holds no underscore and, ignoring case, is the input without its underscores |
| DapperHelpers.Resolve | src/BuildingBlocks/Micro.Dapper/DbHelpers.cs:376-393 | a resolved column names a property index; without an exact match the PascalCase form is looked up |
| DapperHelpers.FirstNamed | src/BuildingBlocks/Micro.Dapper/DbHelpers.cs:379 | the first property named like the column, ignoring case, or none when no property is |
| DapperHelpers.ResolveMeaning | src/BuildingBlocks/Micro.Dapper/DbHelpers.cs:376-393 | a column maps to a property exactly when one is named like the column or like its PascalCase form, ignoring case; an exact match wins |
| DapperHelpers.ResolveIgnoresCase | src/BuildingBlocks/Micro.Dapper/DbHelpers.cs:374 | columns that differ only in letter case map to the same property |
| DapperHelpers.PropertyMap | src/BuildingBlocks/Micro.Dapper/DbHelpers.cs:372-396 | every value in the property map is the index of a property |
| DapperHelpers.PropertyMapContents | src/BuildingBlocks/Micro.Dapper/DbHelpers.cs:372-396 | every column with a match is in the map with its match, a column without one is absent, and nothing else is in the map |
| DapperHelpers.ChooseCommandType | src/BuildingBlocks/Micro.Dapper/DbHelpers.cs:182-191 | an explicit type is used; otherwise text exactly when the trimmed text contains a space, else stored procedure |
| DapperHelpers.Trim | src/BuildingBlocks/Micro.Dapper/DbHelpers.cs:185 | the trimmed text is no longer than the input and has no white space at either end |
| DapperHelpers.GuessIsTextIffInnerSpace | src/BuildingBlocks/Micro.Dapper/DbHelpers.cs:185-186 | the guess is text exactly when a space lies between two non-white-space characters |
| DapperHelpers.DefaultSizeForType | src/BuildingBlocks/Micro.Dapper/DbHelpers.cs:259-273 | 4000 exactly for the four string types, 18 exactly for decimal, 0 otherwise |
| DapperHelpers.HasOutputFlag | src/BuildingBlocks/Micro.Dapper/DbHelpers.cs:143 | `HasFlag(Output)` holds for every direction but input |
| DapperHelpers.NewParameter | src/BuildingBlocks/Micro.Dapper/DbHelpers.cs:227-257 | the name gets "@" exactly on a stored procedure without one already; null becomes `DBNull`; `Output_` names are output parameters and get the default size when their value is null |
| DapperHelpers.NewParameters | src/BuildingBlocks/Micro.Dapper/DbHelpers.cs:198-225 | one parameter per pair, in order |
| DapperHelpers.FirstOutput | src/BuildingBlocks/Micro.Dapper/DbHelpers.cs:142-144 | the first output parameter named like the request, ignoring case, or none |
| DapperHelpers.GetOutputParameter | src/BuildingBlocks/Micro.Dapper/DbHelpers.cs:138-150 | no such output parameter or a `DBNull` value gives the default; otherwise its value |
| DapperHelpers.AllOutputParametersSucceedIffDistinct | src/BuildingBlocks/Micro.Dapper/DbHelpers.cs:152-161 | the dictionary is built exactly when no two output parameters share a name; otherwise it throws |
| DapperHelpers.AllOutputParametersHold | src/BuildingBlocks/Micro.Dapper/DbHelpers.cs:152-161 | a successful read holds exactly the output parameters, each with its value, `DBNull` read as null |
| DapperHelpers.FirstOutputOfAppended | src/BuildingBlocks/Micro.Dapper/DbHelpers.cs:142-144 | behind non-output parameters, an appended output parameter is found exactly under its own name, ignoring case |
| DapperHelpers.OutputNameShape | src/BuildingBlocks/Micro.Dapper/DbHelpers.cs:232-245 | an `Output_` name has no "@", and the prefixed name differs from it |
| DapperHelpers.OutputReadBack | src/BuildingBlocks/Micro.Dapper/DbHelpers.cs:227-257 | an `Output_` parameter reads back its value under its own name on a text command, and under the "@" name (not the bare one) on a stored procedure |
| DapperHelpers.Command.constructor | src/BuildingBlocks/Micro.Dapper/DbHelpers.cs:175 | a new command: empty text, text type, no timeout, no parameters |
| DapperHelpers.Command.AddParameter | src/BuildingBlocks/Micro.Dapper/DbHelpers.cs:227-257 | exactly that parameter is appended; the command is otherwise unchanged |
| DapperHelpers.Command.AddParameters | src/BuildingBlocks/Micro.Dapper/DbHelpers.cs:198-225 | no parameter object adds nothing; otherwise one parameter per pair, in order |
| DapperHelpers.Connection.OpenConnection | src/BuildingBlocks/Micro.Dapper/DbHelpers.cs:91 | the connection is open and the open is recorded |
| DapperHelpers.Connection.ExecuteCommand | src/BuildingBlocks/Micro.Dapper/DbHelpers.cs:97 | the command is recorded; the state is unchanged |
| DapperHelpers.Connection.CloseConnection | src/BuildingBlocks/Micro.Dapper/DbHelpers.cs:102 | the connection is closed and the close is recorded |
| DapperHelpers.CreateCommand | src/BuildingBlocks/Micro.Dapper/DbHelpers.cs:167-196 | a new command with the text, the timeout, the chosen command type and the parameters built for that type |
| DapperHelpers.RunCommand | src/BuildingBlocks/Micro.Dapper/DbHelpers.cs:95-98 | the connection runs that command once; its state is unchanged |
| DapperHelpers.Execute | src/BuildingBlocks/Micro.Dapper/DbHelpers.cs:80-104 | a null connection throws; a closed one is opened, used once and closed again; an open one stays open; the result is the database's answer |
| DomainModel.Create | src/BuildingBlocks/Micro.Domain/Entity.cs:10-13 | a null id throws `ArgumentNullException("id")`, and only then; otherwise the entity holds the id |
| DomainModel.CreateForMapper | src/BuildingBlocks/Micro.Domain/Entity.cs:16 | the mapper constructor leaves `Id` null |
| DomainModel.EntityEquals | src/BuildingBlocks/Micro.Domain/Entity.cs:18-30 | true exactly for the same reference, or an entity of the same runtime type with an equal key; throws exactly for a different entity of the same type when either key is null |
| DomainModel.EntityHash | src/BuildingBlocks/Micro.Domain/Entity.cs:32-33 | the hash throws exactly when the key is null |
| DomainModel.OperatorEquals | src/BuildingBlocks/Micro.Domain/Entity.cs:35-36 | two nulls are equal, a null and an entity are not, and two entities compare with `Equals` |
| DomainModel.OperatorNotEquals | src/BuildingBlocks/Micro.Domain/Entity.cs:38-39 | `!=` is the negation of `==`, and throws exactly when `==` does |
| DomainModel.NotEqualToOtherObjects | src/BuildingBlocks/Micro.Domain/Entity.cs:20-21 | null and objects that are not entities of the same closure are never equal |
| DomainModel.EqualityByTypeAndKey | src/BuildingBlocks/Micro.Domain/Entity.cs:18-30 | entities with ids are equal exactly when they are the same object, or have the same runtime type and equal keys |
| DomainModel.EqualsReflexive | src/BuildingBlocks/Micro.Domain/Entity.cs:23-24 | an entity equals itself, even one with a null `Id` |
| DomainModel.EqualsSymmetric | src/BuildingBlocks/Micro.Domain/Entity.cs:18-30 | `Equals` is symmetric, down to which pairs throw |
| DomainModel.EqualsTransitive | src/BuildingBlocks/Micro.Domain/Entity.cs:18-30 | `Equals` is transitive |
| DomainModel.EqualEntitiesHashAlike | src/BuildingBlocks/Micro.Domain/Entity.cs:32-33 | equal entities have equal hash codes |
| DomainModel.MapperEntityThrows | src/BuildingBlocks/Micro.Domain/Entity.cs:16-33 | an entity with a null `Id` throws when compared with a distinct entity of its type, either way round, and when hashed |
| DomainModel.OperatorsAgreeWithEquals | src/BuildingBlocks/Micro.Domain/Entity.cs:35-39 | `==` is `Equals` for non-null operands, true for two nulls and false for one; `!=` is its negation |
| DomainModel.AfterChangesAppend | src/BuildingBlocks/Micro.Domain/AggregateRoot.cs:12-14 | applying changes in two runs equals applying them in one |
| DomainModel.EventsWithoutClear | src/BuildingBlocks/Micro.Domain/AggregateRoot.cs:12 | without a clear, the added events follow the earlier ones in insertion order |
| DomainModel.EventsSinceLastClear | src/BuildingBlocks/Micro.Domain/AggregateRoot.cs:12-14 | after the last clear, the list holds exactly the events added since, in order |
| DomainModel.AggregateRoot.constructor | src/BuildingBlocks/Micro.Domain/AggregateRoot.cs:10 | the entity holds the id and the event list starts empty |
| DomainModel.AggregateRoot.DomainEvents | src/BuildingBlocks/Micro.Domain/AggregateRoot.cs:8 | the view shows the live list, element for element |
| DomainModel.AggregateRoot.AddDomainEvent | src/BuildingBlocks/Micro.Domain/AggregateRoot.cs:12 | the event is appended at the end and earlier events are unchanged |
| DomainModel.AggregateRoot.ClearDomainEvents | src/BuildingBlocks/Micro.Domain/AggregateRoot.cs:14 | the list is empty |
| DomainModel.NewAggregateRoot | src/BuildingBlocks/Micro.Domain/AggregateRoot.cs:10 | a null id is refused by the base constructor; otherwise a fresh root |
| DomainModel.ValidationResult.constructor | src/BuildingBlocks/Micro.Domain/ValidationResult.cs:6 | no errors at first |
| DomainModel.ValidationResult.IsValid | src/BuildingBlocks/Micro.Domain/ValidationResult.cs:8 | valid exactly when the error view is empty |
| DomainModel.ValidationResult.Errors | src/BuildingBlocks/Micro.Domain/ValidationResult.cs:9 | the view shows the live list, element for element |
| DomainModel.ValidationResult.AddError | src/BuildingBlocks/Micro.Domain/ValidationResult.cs:11-14 | one error is appended, and the result is then invalid |
| DomainModel.ValidationResult.AddErrors | src/BuildingBlocks/Micro.Domain/ValidationResult.cs:16-19 | all given errors are appended in order; valid afterwards exactly when valid before and nothing was added |
| DomainModel.ErrorsOnlyGrow | src/BuildingBlocks/Micro.Domain/ValidationResult.cs:11-19 | errors are never removed; after any `AddError` the result is invalid |
| DomainModel.Validate | src/BuildingBlocks/Micro.Domain/ValidatableEntity.cs:9-13 | throws exactly when there are errors; the exception says "Domain validation failed" and holds the errors |
| DomainModel.ExceptionKeepsSnapshot | src/BuildingBlocks/Micro.Domain/DomainValidationException.cs:7-11 | the exception keeps the errors of the moment it was thrown; an error added later does not appear in it |

## Left out

- Concurrency.
  - Channels, the `Task.Run` consumer tasks and their backpressure.
  - The bounded capacity, `WaitAsync` and cancellation tokens.
  - The mediator's `DisposeAsync`.
  - The concurrent dictionaries, the key-lock semaphores and `Interlocked`/`lock`.
  
  The two mediator loops are sequential queue draining. The hybrid cache and
  the diagnostics serve one caller at a time.
- MediatorDispatch.Mediator.Send: returns the envelope's ticket instead of
  awaiting the completion. The final `(TResponse)` cast is not modelled.
- MediatorDispatch.Mediator.Query: the `(ICommand<TResponse>)` cast is taken
  to succeed. The query interfaces are not part of this model.
- MediatorDispatch.Mediator.CreateStream: the caller's `await foreach` over
  the output channel is not modelled. The output channel is a value. The
  source is an async iterator: the envelope is written only at the first
  `MoveNextAsync`, and once per enumeration. The model treats the call as
  one eager enumeration.
- Reflection: `GetHandler`/`GetStreamHandler`, `MakeGenericType`, method
  invocation, assembly scanning and `IsAssignableFrom`.
  - Handlers are a map from message and response type tags to functions.
  - A missing registration faults the envelope.
  - The non-`Task` branch of the handler delegate is not modelled.
  - A handler that throws synchronously surfaces through `MethodInfo.Invoke`
    wrapped in `TargetInvocationException`; the model passes the handler's
    own exception through instead.
  - `IsAssignableFrom` is a parameter of the registry.
- MediatorDispatch.Publish: handlers run in list order. `Task.WhenAll`'s
  interleaving is not modelled.
- RetryPolicyPipelineBehavior.Handle: Polly's wait-and-retry loop is modelled
  as the contract the call site configures. The waits are whole seconds and
  are returned, not slept. The retry warning text is not modelled.
- CircuitBreakerPipelineBehavior.Step: Polly's breaker is modelled as its
  documented consecutive-count contract. Half-open is folded into "a trial
  call once the break has elapsed". Time is whole seconds passed in as `now`.
  The `ICircuitBreakerState` implementation is not part of this model; it is
  a get-or-add map.
- CachingPipelineBehavior.Lookup: the provider's miss result for a
  value-type response is its default value. The `ICacheProvider`
  implementation is not part of this model.
- CachingPipelineBehavior.Step: `ICacheable.CacheDuration` is a `TimeSpan`;
  it is modelled as whole seconds, the `cacheDurationSeconds` field.
- PipelineComposition.CreatePipeline: the cast is decided by the closed
  type the behaviours were resolved for. A behaviour class that itself also
  implements `IPipelineBehavior<IMessage, object>` would pass the cast; such
  classes are not modelled, and resolved behaviours are taken to be the
  closed generic registrations.
- TransactionPipelineBehavior.Handle: the database is a script saying which
  calls throw. Entity Framework is not modelled. A fault raised by disposing
  the transaction is not modelled: dispose always succeeds.
- ServiceCollectionExtensions.SendAfterAddChannelMediatorFaults: activating
  the behaviours is taken to succeed. `AddChannelMediator` registers no
  `ICacheProvider`, `ICircuitBreakerState`, `DbContext` or loggers, so
  without the host registering them, resolution throws DI's
  `InvalidOperationException` before the cast is reached.
- PipelineRegistryCore.OpenBehaviorReAdded: its premise
  `assignable(IPipelineBehavior, t)` holds, under .NET's answer
  (`DefinitionAssignable`), only for the `IPipelineBehavior<,>` definition
  itself. A behaviour class definition passes it only under the intended
  test (`ImplementsDefinition`); see Findings.
- PipelineRegistryCore.ConfigureAction: the callback is a pure update of the
  configuration's two properties. A callback that throws or has other side
  effects is not modelled.
- CachePolicies.CachePolicyManager.GetPolicy: the dictionary's enumeration
  order is unspecified. A tie between matching priorities may pick any of
  them, so the contract allows any top-priority match. A policy stored as
  null is not modelled.
- CachePolicies.MatchesPattern: only `*` and `?` are treated as special.
  - The regular-expression escaping of other characters is implied.
  - `.` does not match a line feed.
  - `$` also matches before a final line feed.
  - The catch-all branch for regular-expression errors cannot be reached
    with escaped patterns.
- HybridCaching.HybridCache: `RefreshAsync` is not modelled, and
  `DisposeAsync` does what `Dispose` does. Layers are abstract stores:
  - whether each is available;
  - whether its calls throw;
  - whether it supports regions.
  
  The memory, Redis and serializer layers are not modelled, and neither is
  expiry by the clock. Cancellation is an exception value.
- HybridCaching.LayerGet: for a reference type any non-null stored value is
  taken to be a `T`. The subtype test behind `value is T` and a failed Redis
  deserialisation into the wrong type are not modelled. A value type is a
  tag whose default is a boxed zero.
- HybridCaching.HybridCache.CreateOnMiss: the double-check after taking the
  key lock always misses with one caller. That branch is present but
  unreachable.
- CacheDiagnosticsCounters.CacheDiagnostics.GetStats: `HitRatio` and
  `ErrorRate` are doubles and are not modelled. Counters are unbounded
  rather than 64-bit.
- DapperHelpers.Execute: `Query`, `QueryAsync`, `ReadData`/`ReadDataAsync`,
  `ConvertSimpleType`, `ConvertValue` and transactions are not modelled.
  `ExecuteAsync` is the same as `Execute`. A parameter object is a list of
  name/value pairs; property reflection is not modelled.
- DapperHelpers.Connection: a connection is only open or closed. The
  `Broken`, `Connecting`, `Executing` and `Fetching` states are not
  modelled, so "was closed" means "not open".
- DapperHelpers.ToPascalCase: upper and lower case are ASCII only. Culture
  rules are not modelled.
- DapperHelpers.GetOutputParameter: the value is returned before the
  conversion to `TOut`.
- DomainModel.EntityHash: `HashCode.Combine` is seeded per process, so it is
  a parameter.
- DomainModel: `IDomainEvent.OccurredOn` (a clock reading), `Identity`'s
  `ToString` and the implicit conversion are not modelled.
- Log message templates, `ActivitySource` text and stopwatch timings are
  abstract trace events.

## Findings

| source | as written | input that shows it | evidently intended | confidence | as-written member | corrected member |
|---|---|---|---|---|---|---|
| src/BuildingBlocks/Micro.CQRS/Core/Mediator.cs:209-212 | the behaviours resolved for `IPipelineBehavior<M, R>` are cast with `.Cast<IPipelineBehavior<IMessage, object>>()`; the interface is invariant, so for a concrete `M` every element fails the cast with `InvalidCastException` (the same at lines 227-229 for stream behaviours) | any `Send` of a command with a registered handler after `AddChannelMediator`, which registers six open behaviours, provided the host also registers the behaviours' dependencies (`ICacheProvider`, `ICircuitBreakerState`, `DbContext`, loggers) so that DI activation succeeds | run the handler inside the behaviours, the first registered outermost | high, not executed | MediatorDispatch.Dispatch, MediatorDispatch.BehaviorsMakeDispatchFault, MediatorDispatch.StreamBehaviorsMakeDispatchFault, ServiceCollectionExtensions.SendAfterAddChannelMediatorFaults | MediatorDispatch.IntendedDispatch, MediatorDispatch.DispatchThroughTransparentPipeline, PipelineComposition.ComposePipeline, ServiceCollectionExtensions.DefaultPipelineOrder |
| src/BuildingBlocks/Micro.CQRS/Core/IPipelineRegistry.cs:55, 59 | an open behaviour type is registered only when `typeof(IPipelineBehavior<,>).IsAssignableFrom(behaviorType.GetGenericTypeDefinition())` (or the stream counterpart) holds; for a class definition `X<,>` that implements `IPipelineBehavior<TMessage, TResponse>` this is false, since the class implements the interface closed over its own parameters, not the open definition | `ConfigurePipeline(typeof(M), c => c.BehaviorTypes.Add(typeof(LoggingPipelineBehavior<,>)))`: no registration is added | register each open behaviour class that implements the interface, under `IPipelineBehavior<,>` | high, not executed | PipelineRegistryCore.OpenBehaviorClassesDropped | PipelineRegistryCore.OpenBehaviorClassesRegistered |
