/** `Mediator`: commands and queries are queued as envelopes and drained in
    order by a single command loop; stream requests are queued likewise and
    drained by a stream loop that forwards the pipeline's items to a
    per-request output channel. The two consumer tasks run one envelope at a
    time each; here each loop is a method that drains its queue. Handlers and
    behaviours are what the service provider resolves: a registered command
    handler is a function from message to the outcome of its task, and the
    behaviours registered for a message/response pair are listed in
    registration order. */
module MediatorDispatch {
  import opened Kernel
  import opened PipelineComposition
  import UnitStruct
  import LoggingPipelineBehavior
  import PipelineMiddlewares

  /** The closed `ICommandHandler<TMessage, TResponse>` a command resolves to. */
  datatype HandlerKey = HandlerKey(messageType: TypeTag, responseType: TypeTag)

  /** `IPipelineBehavior<TMessage, TResponse>.Handle(message, next)` */
  type Behavior = (Message, Next) -> Run

  /** What enumerating a stream yields: the items produced before it ended,
      and the exception it ended with, if any. */
  datatype StreamRun = StreamRun(items: seq<Value>, fault: Option<Exception>)

  type StreamNext = Message -> StreamRun

  /** `IStreamPipelineBehavior<TMessage>.Handle(message, next)` */
  type StreamBehavior = (Message, StreamNext) -> StreamRun

  /** Running a composed pipeline: `Wrap(b, inner)` is
      `(m, c) => b.Handle(m, inner, c)`, and `Terminal` the handler delegate. */
  function Eval<R>(p: Pipeline<(Message, Message -> R) -> R>, handler: Message -> R): Message -> R
  {
    match p
    case Terminal => handler
    case Wrap(b, inner) => (m: Message) => b(m, Eval(inner, handler))
  }

  /** A behaviour that hands back exactly the outcome of the `next` it is given. */
  ghost predicate Transparent(b: Behavior)
  {
    forall m: Message, n: Next {:trigger b(m, n)} :: b(m, n).outcome == n(m).outcome
  }

  /** A pipeline of transparent behaviours yields what the handler yields. */
  lemma {:induction false} TransparentPipelineKeepsOutcome(bs: seq<Behavior>, handler: Next, m: Message)
    requires forall i :: 0 <= i < |bs| ==> Transparent(bs[i])
    ensures Eval(ComposePipeline(bs), handler)(m).outcome == handler(m).outcome
    decreases |bs|
  {
    if bs != [] {
      TransparentPipelineKeepsOutcome(bs[1..], handler, m);
      assert Transparent(bs[0]);
      assert bs[0](m, Eval(Nest(bs[1..]), handler)).outcome == Eval(Nest(bs[1..]), handler)(m).outcome;
    }
  }

  const LoggingPipeline: Behavior := (m: Message, n: Next) => LoggingPipelineBehavior.Handle(m, n)
  const Tracking: Behavior := (m: Message, n: Next) => PipelineMiddlewares.Handle(m, n)

  /** The logging and performance-tracking wrappers are transparent, so a
      pipeline of them answers as the bare handler does. */
  lemma ObserversAreTransparent(handler: Next, m: Message)
    ensures Transparent(LoggingPipeline) && Transparent(Tracking)
    ensures Eval(ComposePipeline([LoggingPipeline, Tracking]), handler)(m).outcome == handler(m).outcome
  {
    TransparentPipelineKeepsOutcome([LoggingPipeline, Tracking], handler, m);
  }

  /** `AwaitTask(task, resultType)`: for a `Unit` response the result is
      `Unit.Value` whatever the task produced; otherwise a null result is an
      `InvalidOperationException`. A faulted task's exception propagates. */
  function AwaitTask(task: Outcome, resultType: TypeTag): (r: Outcome)
    ensures task.Fault? ==> r == task
    ensures task.Ok? && resultType == UnitTag ==> r == Ok(UnitStruct.BoxedUnit)
    ensures task.Ok? && resultType != UnitTag && task.value != Null ==> r == task
    ensures task.Ok? && resultType != UnitTag && task.value == Null ==>
              r == Fault(InvalidOperation("Task result is null"))
    ensures r.Ok? ==> r.value != Null
  {
    match task
    case Fault(_) => task
    case Ok(v) =>
      if resultType == UnitTag then Ok(UnitStruct.BoxedUnit)
      else if v == Null then Fault(InvalidOperation("Task result is null"))
      else task
  }

  /** `GetRequiredService` on a missing handler registration. */
  const MissingHandler: Exception := InvalidOperation("No service for type 'ICommandHandler`2' has been registered.")
  const MissingStreamHandler: Exception := InvalidOperation("No service for type 'IStreamMessageHandler`1' has been registered.")

  /** `GetHandler`: the delegate that invokes the handler and awaits its task. */
  function HandlerDelegate(handle: Message -> Outcome, responseType: TypeTag): (d: Next)
    ensures forall m :: d(m).trace == [HandlerInvoked(m.TypeName())]
    ensures forall m :: handle(m).Fault? ==> d(m).outcome == handle(m)
    ensures forall m :: d(m).outcome.Ok? ==> d(m).outcome.value != Null
  {
    (m: Message) => Run(AwaitTask(handle(m), responseType), [HandlerInvoked(m.TypeName())])
  }

  datatype CommandEnvelope = CommandEnvelope(ticket: nat, command: Message, responseType: TypeTag)

  /** The state of an envelope's `TaskCompletionSource`. */
  datatype Completion = Pending | Succeeded(result: Value) | Failed(error: Exception)

  function Resolution(o: Outcome): (c: Completion)
    ensures c != Pending
    ensures o.Ok? <==> c.Succeeded?
  {
    match o
    case Ok(v) => Succeeded(v)
    case Fault(e) => Failed(e)
  }

  /** Whether the behaviours resolved for `IPipelineBehavior<M, R>` convert to
      `IPipelineBehavior<IMessage, object>`. The interface is invariant in
      both parameters, so a behaviour closed over `M` and `R` converts only
      when `M` is `IMessage` and `R` is `object`. */
  predicate ConvertsToErased(key: HandlerKey)
  {
    key.messageType == IMessageTag && key.responseType == ObjectTag
  }

  function BehaviorCastFailure(key: HandlerKey): Exception
  {
    InvalidCast("IPipelineBehavior`2[" + key.messageType.name + "," + key.responseType.name + "]",
                "IPipelineBehavior`2[IMessage,Object]")
  }

  /** One iteration of the command loop's body, as written: the handler is
      resolved, then the pipeline is created (the cast of the resolved
      behaviours may throw), then the pipeline runs. */
  function Dispatch(handlers: map<HandlerKey, Message -> Outcome>, behaviors: HandlerKey -> seq<Behavior>,
                    env: CommandEnvelope): (r: Run)
    ensures var key := HandlerKey(env.command.runtimeType, env.responseType);
            behaviors(key) == [] || ConvertsToErased(key) || key !in handlers ==>
              r == IntendedDispatch(handlers, behaviors, env)
    ensures var key := HandlerKey(env.command.runtimeType, env.responseType);
            key in handlers && behaviors(key) != [] && !ConvertsToErased(key) ==>
              r == Run(Fault(BehaviorCastFailure(key)), [])
  {
    var key := HandlerKey(env.command.runtimeType, env.responseType);
    if key !in handlers then Run(Fault(MissingHandler), [])
    else
      match CreatePipeline(behaviors(key), (b: Behavior) => ConvertsToErased(key))
      case None => Run(Fault(BehaviorCastFailure(key)), [])
      case Some(p) => Eval(p, HandlerDelegate(handlers[key], env.responseType))(env.command)
  }

  /** What the command loop evidently means to do: run the handler inside
      the resolved behaviours, the first registered outermost. */
  function IntendedDispatch(handlers: map<HandlerKey, Message -> Outcome>, behaviors: HandlerKey -> seq<Behavior>,
                            env: CommandEnvelope): (r: Run)
    ensures var key := HandlerKey(env.command.runtimeType, env.responseType);
            key in handlers && behaviors(key) == [] ==>
              r.outcome == AwaitTask(handlers[key](env.command), env.responseType)
  {
    var key := HandlerKey(env.command.runtimeType, env.responseType);
    if key !in handlers then Run(Fault(MissingHandler), [])
    else Eval(ComposePipeline(behaviors(key)), HandlerDelegate(handlers[key], env.responseType))(env.command)
  }

  /** Without behaviours a registered handler's awaited result is the
      envelope's result; without a registration the envelope faults with
      `InvalidOperationException` and nothing runs. */
  lemma DispatchBareHandler(handlers: map<HandlerKey, Message -> Outcome>, behaviors: HandlerKey -> seq<Behavior>,
                            env: CommandEnvelope)
    ensures var key := HandlerKey(env.command.runtimeType, env.responseType);
            && (key !in handlers ==> Dispatch(handlers, behaviors, env) == Run(Fault(MissingHandler), []))
            && (key in handlers && behaviors(key) == [] ==>
                  Dispatch(handlers, behaviors, env) ==
                    Run(AwaitTask(handlers[key](env.command), env.responseType), [HandlerInvoked(env.command.TypeName())]))
  {
  }

  /** As written, any resolved behaviour makes the envelope fault with the
      cast's `InvalidCastException`: no behaviour and no handler runs, and a
      handler that would have succeeded is never reached. */
  lemma BehaviorsMakeDispatchFault(handlers: map<HandlerKey, Message -> Outcome>,
                                   behaviors: HandlerKey -> seq<Behavior>, env: CommandEnvelope)
    requires HandlerKey(env.command.runtimeType, env.responseType) in handlers
    requires behaviors(HandlerKey(env.command.runtimeType, env.responseType)) != []
    requires env.command.runtimeType != IMessageTag
    ensures var key := HandlerKey(env.command.runtimeType, env.responseType);
            Dispatch(handlers, behaviors, env) == Run(Fault(BehaviorCastFailure(key)), [])
    ensures var key := HandlerKey(env.command.runtimeType, env.responseType);
            var bs := behaviors(key);
            (forall i :: 0 <= i < |bs| ==> Transparent(bs[i])) && handlers[key](env.command).Ok? ==>
              IntendedDispatch(handlers, behaviors, env).outcome != Dispatch(handlers, behaviors, env).outcome
  {
    var key := HandlerKey(env.command.runtimeType, env.responseType);
    var bs := behaviors(key);
    assert !((b: Behavior) => ConvertsToErased(key))(bs[0]);
    if (forall i :: 0 <= i < |bs| ==> Transparent(bs[i])) && handlers[key](env.command).Ok? {
      DispatchThroughTransparentPipeline(handlers, behaviors, env);
    }
  }

  /** With no behaviour to cast, the loop does what it evidently means to. */
  lemma DispatchAgreesWithoutBehaviors(handlers: map<HandlerKey, Message -> Outcome>,
                                       behaviors: HandlerKey -> seq<Behavior>, env: CommandEnvelope)
    requires behaviors(HandlerKey(env.command.runtimeType, env.responseType)) == []
    ensures Dispatch(handlers, behaviors, env) == IntendedDispatch(handlers, behaviors, env)
  {
  }

  /** With only transparent behaviours registered, the intended loop resolves
      the envelope with the handler's awaited result. */
  lemma DispatchThroughTransparentPipeline(handlers: map<HandlerKey, Message -> Outcome>,
                                           behaviors: HandlerKey -> seq<Behavior>, env: CommandEnvelope)
    requires HandlerKey(env.command.runtimeType, env.responseType) in handlers
    requires var bs := behaviors(HandlerKey(env.command.runtimeType, env.responseType));
             forall i :: 0 <= i < |bs| ==> Transparent(bs[i])
    ensures IntendedDispatch(handlers, behaviors, env).outcome ==
              AwaitTask(handlers[HandlerKey(env.command.runtimeType, env.responseType)](env.command), env.responseType)
  {
    var key := HandlerKey(env.command.runtimeType, env.responseType);
    TransparentPipelineKeepsOutcome(behaviors(key), HandlerDelegate(handlers[key], env.responseType), env.command);
  }

  /** The completion slots after the loop has handled `q`, in order. */
  function Resolved(handlers: map<HandlerKey, Message -> Outcome>, behaviors: HandlerKey -> seq<Behavior>,
                    c: map<nat, Completion>, q: seq<CommandEnvelope>): map<nat, Completion>
  {
    if q == [] then c
    else
      var last := q[|q| - 1];
      Resolved(handlers, behaviors, c, q[..|q| - 1])[last.ticket := Resolution(Dispatch(handlers, behaviors, last).outcome)]
  }

  function Tickets(q: seq<CommandEnvelope>): (ts: seq<nat>)
    ensures |ts| == |q| && forall i :: 0 <= i < |q| ==> ts[i] == q[i].ticket
  {
    if q == [] then [] else Tickets(q[..|q| - 1]) + [q[|q| - 1].ticket]
  }

  /** The exceptions the command loop logs while handling `q`, in order. */
  function CommandFaults(handlers: map<HandlerKey, Message -> Outcome>, behaviors: HandlerKey -> seq<Behavior>,
                         q: seq<CommandEnvelope>): seq<Exception>
  {
    if q == [] then []
    else
      var run := Dispatch(handlers, behaviors, q[|q| - 1]);
      CommandFaults(handlers, behaviors, q[..|q| - 1]) + (if run.outcome.Fault? then [run.outcome.error] else [])
  }

  predicate DistinctTickets(q: seq<CommandEnvelope>)
  {
    forall i, j :: 0 <= i < j < |q| ==> q[i].ticket != q[j].ticket
  }

  /** Queued commands have distinct tickets, each with a pending slot. */
  ghost predicate PendingQueue(q: seq<CommandEnvelope>, c: map<nat, Completion>)
  {
    DistinctTickets(q) && forall i :: 0 <= i < |q| ==> q[i].ticket in c && c[q[i].ticket] == Pending
  }

  /** Taking the front envelope and setting its slot keeps the rest pending. */
  lemma PopPendingQueue(q: seq<CommandEnvelope>, c: map<nat, Completion>, v: Completion)
    requires q != [] && PendingQueue(q, c)
    ensures PendingQueue(q[1..], c[q[0].ticket := v])
  {
    forall i | 0 <= i < |q[1..]|
      ensures q[1..][i].ticket != q[0].ticket
    {
      assert q[1..][i] == q[i + 1];
    }
  }

  /** One more envelope handled: the loop's three records each grow by it. */
  lemma CommandStep(handlers: map<HandlerKey, Message -> Outcome>, behaviors: HandlerKey -> seq<Behavior>,
                    c: map<nat, Completion>, q: seq<CommandEnvelope>, k: nat)
    requires k < |q|
    ensures var run := Dispatch(handlers, behaviors, q[k]);
            && Resolved(handlers, behaviors, c, q[..k + 1]) ==
                 Resolved(handlers, behaviors, c, q[..k])[q[k].ticket := Resolution(run.outcome)]
            && Tickets(q[..k + 1]) == Tickets(q[..k]) + [q[k].ticket]
            && CommandFaults(handlers, behaviors, q[..k + 1]) ==
                 CommandFaults(handlers, behaviors, q[..k]) + (if run.outcome.Fault? then [run.outcome.error] else [])
  {
    assert q[..k + 1][..k] == q[..k];
  }

  /** Every envelope of the queue has its completion set, to its own
      pipeline's result or exception, and every other slot is left alone. */
  lemma {:induction false} EachEnvelopeResolvedOnce(handlers: map<HandlerKey, Message -> Outcome>,
                                                    behaviors: HandlerKey -> seq<Behavior>,
                                                    c: map<nat, Completion>, q: seq<CommandEnvelope>)
    requires DistinctTickets(q)
    ensures var r := Resolved(handlers, behaviors, c, q);
            && (forall i :: 0 <= i < |q| ==>
                  q[i].ticket in r && r[q[i].ticket] == Resolution(Dispatch(handlers, behaviors, q[i]).outcome))
            && (forall t :: t in c && t !in Tickets(q) ==> t in r && r[t] == c[t])
            && (forall t :: t in r ==> t in c || t in Tickets(q))
    decreases |q|
  {
    if q != [] {
      var init := q[..|q| - 1];
      EachEnvelopeResolvedOnce(handlers, behaviors, c, init);
      assert Tickets(q) == Tickets(init) + [q[|q| - 1].ticket];
      var r := Resolved(handlers, behaviors, c, q);
      forall i | 0 <= i < |q|
        ensures q[i].ticket in r && r[q[i].ticket] == Resolution(Dispatch(handlers, behaviors, q[i]).outcome)
      {
        if i < |q| - 1 {
          assert init[i] == q[i];
        }
      }
    }
  }

  datatype StreamEnvelope = StreamEnvelope(ticket: nat, message: Message, responseType: TypeTag)

  /** The unbounded per-request output channel. */
  datatype ResponseChannel = ResponseChannel(items: seq<Value>, completed: bool)

  /** The exact-runtime-type test `item?.GetType() == envelope.ResponseType`. */
  predicate Matches(item: Value, responseType: TypeTag)
  {
    item.Boxed? && item.runtimeType == responseType
  }

  /** The items the stream loop forwards, in the order produced. */
  function Forwarded(items: seq<Value>, responseType: TypeTag): (r: seq<Value>)
    ensures |r| <= |items|
    ensures forall i :: 0 <= i < |r| ==> Matches(r[i], responseType)
  {
    if items == [] then []
    else
      var last := items[|items| - 1];
      Forwarded(items[..|items| - 1], responseType) + (if Matches(last, responseType) then [last] else [])
  }

  /** An item is forwarded exactly when it was produced and has the requested
      runtime type; null items and items of other types are dropped. */
  lemma {:induction false} ForwardedExactlyMatching(items: seq<Value>, t: TypeTag, x: Value)
    ensures x in Forwarded(items, t) <==> x in items && Matches(x, t)
    decreases |items|
  {
    if items != [] {
      var init := items[..|items| - 1];
      ForwardedExactlyMatching(init, t, x);
      assert items == init + [items[|items| - 1]];
    }
  }

  /** Forwarding keeps the producer's order: it distributes over
      concatenation. */
  lemma {:induction false} ForwardedKeepsOrder(a: seq<Value>, b: seq<Value>, t: TypeTag)
    ensures Forwarded(a + b, t) == Forwarded(a, t) + Forwarded(b, t)
    decreases |b|
  {
    if b == [] {
      assert a + b == a;
    } else {
      var init := b[..|b| - 1];
      ForwardedKeepsOrder(a, init, t);
      assert (a + b)[..|a + b| - 1] == a + init;
      assert (a + b)[|a + b| - 1] == b[|b| - 1];
    }
  }

  /** Whether the behaviours resolved for `IStreamPipelineBehavior<M>`
      convert to `IStreamPipelineBehavior<IStreamMessage>`: only when `M` is
      `IStreamMessage`, the interface being invariant. */
  predicate StreamConvertsToErased(t: TypeTag)
  {
    t == IStreamMessageTag
  }

  function StreamBehaviorCastFailure(t: TypeTag): Exception
  {
    InvalidCast("IStreamPipelineBehavior`1[" + t.name + "]", "IStreamPipelineBehavior`1[IStreamMessage]")
  }

  /** One iteration of the stream loop's body, as written: the handler is
      resolved, the stream pipeline is created (the cast may throw), and its
      items are enumerated. */
  function StreamDispatch(handlers: map<TypeTag, StreamNext>, behaviors: TypeTag -> seq<StreamBehavior>,
                          env: StreamEnvelope): (r: StreamRun)
    ensures var t := env.message.runtimeType;
            behaviors(t) == [] || StreamConvertsToErased(t) || t !in handlers ==>
              r == IntendedStreamDispatch(handlers, behaviors, env)
    ensures var t := env.message.runtimeType;
            t in handlers && behaviors(t) != [] && !StreamConvertsToErased(t) ==>
              r == StreamRun([], Some(StreamBehaviorCastFailure(t)))
  {
    var t := env.message.runtimeType;
    if t !in handlers then StreamRun([], Some(MissingStreamHandler))
    else
      match CreatePipeline(behaviors(t), (b: StreamBehavior) => StreamConvertsToErased(t))
      case None => StreamRun([], Some(StreamBehaviorCastFailure(t)))
      case Some(p) => Eval(p, handlers[t])(env.message)
  }

  /** What the stream loop evidently means to do: enumerate the handler's
      stream inside the resolved stream behaviours. */
  function IntendedStreamDispatch(handlers: map<TypeTag, StreamNext>, behaviors: TypeTag -> seq<StreamBehavior>,
                                  env: StreamEnvelope): (r: StreamRun)
    ensures var t := env.message.runtimeType;
            t in handlers && behaviors(t) == [] ==> r == handlers[t](env.message)
    ensures env.message.runtimeType !in handlers ==> r.items == [] && r.fault == Some(MissingStreamHandler)
  {
    var t := env.message.runtimeType;
    if t !in handlers then StreamRun([], Some(MissingStreamHandler))
    else Eval(ComposePipeline(behaviors(t)), handlers[t])(env.message)
  }

  /** As written, a stream with any stream behaviour registered yields no item
      and ends with the cast's exception; with none, the handler's stream is
      enumerated as intended. */
  lemma StreamBehaviorsMakeDispatchFault(handlers: map<TypeTag, StreamNext>,
                                         behaviors: TypeTag -> seq<StreamBehavior>, env: StreamEnvelope)
    requires env.message.runtimeType in handlers
    requires env.message.runtimeType != IStreamMessageTag
    ensures behaviors(env.message.runtimeType) != [] ==>
              StreamDispatch(handlers, behaviors, env) ==
                StreamRun([], Some(StreamBehaviorCastFailure(env.message.runtimeType)))
    ensures behaviors(env.message.runtimeType) == [] ==>
              StreamDispatch(handlers, behaviors, env) == IntendedStreamDispatch(handlers, behaviors, env)
              && StreamDispatch(handlers, behaviors, env) == handlers[env.message.runtimeType](env.message)
  {
    var t := env.message.runtimeType;
    if behaviors(t) != [] {
      assert !((b: StreamBehavior) => StreamConvertsToErased(t))(behaviors(t)[0]);
    }
  }

  /** The output channels after the stream loop has handled `q`: each
      envelope's channel has received the matching items and is completed. */
  function Streamed(handlers: map<TypeTag, StreamNext>, behaviors: TypeTag -> seq<StreamBehavior>,
                    o: map<nat, ResponseChannel>, q: seq<StreamEnvelope>): map<nat, ResponseChannel>
  {
    if q == [] then o
    else
      var last := q[|q| - 1];
      var before := Streamed(handlers, behaviors, o, q[..|q| - 1]);
      var sent := if last.ticket in before then before[last.ticket].items else [];
      var run := StreamDispatch(handlers, behaviors, last);
      before[last.ticket := ResponseChannel(sent + Forwarded(run.items, last.responseType), true)]
  }

  /** One more stream envelope handled: its channel is filled and
      completed, and its fault, if any, is logged. */
  lemma StreamStep(handlers: map<TypeTag, StreamNext>, behaviors: TypeTag -> seq<StreamBehavior>,
                   o: map<nat, ResponseChannel>, q: seq<StreamEnvelope>, k: nat)
    requires k < |q|
    ensures var before := Streamed(handlers, behaviors, o, q[..k]);
            var run := StreamDispatch(handlers, behaviors, q[k]);
            var sent := if q[k].ticket in before then before[q[k].ticket].items else [];
            && Streamed(handlers, behaviors, o, q[..k + 1]) ==
                 before[q[k].ticket := ResponseChannel(sent + Forwarded(run.items, q[k].responseType), true)]
            && StreamFaults(handlers, behaviors, q[..k + 1]) ==
                 StreamFaults(handlers, behaviors, q[..k]) + (if run.fault.Some? then [run.fault.value] else [])
  {
    assert q[..k + 1][..k] == q[..k];
  }

  /** Queued streams have distinct tickets, each with an empty open channel. */
  ghost predicate OpenStreamQueue(q: seq<StreamEnvelope>, o: map<nat, ResponseChannel>)
  {
    && (forall i, j :: 0 <= i < j < |q| ==> q[i].ticket != q[j].ticket)
    && (forall i :: 0 <= i < |q| ==> q[i].ticket in o && o[q[i].ticket] == ResponseChannel([], false))
  }

  /** Taking the front envelope and completing its channel keeps the rest open. */
  lemma PopOpenStreamQueue(q: seq<StreamEnvelope>, o: map<nat, ResponseChannel>, v: ResponseChannel)
    requires q != [] && OpenStreamQueue(q, o)
    ensures OpenStreamQueue(q[1..], o[q[0].ticket := v])
  {
    forall i | 0 <= i < |q[1..]|
      ensures q[1..][i].ticket != q[0].ticket
    {
      assert q[1..][i] == q[i + 1];
    }
  }

  /** The exceptions the stream loop logs (and swallows) while handling `q`. */
  function StreamFaults(handlers: map<TypeTag, StreamNext>, behaviors: TypeTag -> seq<StreamBehavior>,
                        q: seq<StreamEnvelope>): seq<Exception>
  {
    if q == [] then []
    else
      var run := StreamDispatch(handlers, behaviors, q[|q| - 1]);
      StreamFaults(handlers, behaviors, q[..|q| - 1]) + (if run.fault.Some? then [run.fault.value] else [])
  }

  /** Every handled stream request's channel ends completed, holding exactly
      the matching items, whether or not the stream faulted. */
  lemma {:induction false} EveryChannelCompleted(handlers: map<TypeTag, StreamNext>,
                                                 behaviors: TypeTag -> seq<StreamBehavior>,
                                                 o: map<nat, ResponseChannel>, q: seq<StreamEnvelope>)
    requires forall i, j :: 0 <= i < j < |q| ==> q[i].ticket != q[j].ticket
    requires forall i :: 0 <= i < |q| ==> q[i].ticket in o && o[q[i].ticket].items == []
    ensures var r := Streamed(handlers, behaviors, o, q);
            forall i :: 0 <= i < |q| ==>
              && q[i].ticket in r
              && r[q[i].ticket] ==
                   ResponseChannel(Forwarded(StreamDispatch(handlers, behaviors, q[i]).items, q[i].responseType), true)
    decreases |q|
  {
    if q != [] {
      var init := q[..|q| - 1];
      EveryChannelCompleted(handlers, behaviors, o, init);
      var before := Streamed(handlers, behaviors, o, init);
      var last := q[|q| - 1];
      StreamedLeavesOthers(handlers, behaviors, o, init, last.ticket);
      forall i | 0 <= i < |q| - 1
        ensures init[i] == q[i]
      {
      }
    }
  }

  lemma {:induction false} StreamedLeavesOthers(handlers: map<TypeTag, StreamNext>,
                                                behaviors: TypeTag -> seq<StreamBehavior>,
                                                o: map<nat, ResponseChannel>, q: seq<StreamEnvelope>, t: nat)
    requires forall i :: 0 <= i < |q| ==> q[i].ticket != t
    ensures t in o ==> t in Streamed(handlers, behaviors, o, q) && Streamed(handlers, behaviors, o, q)[t] == o[t]
    ensures t !in o ==> t !in Streamed(handlers, behaviors, o, q)
    decreases |q|
  {
    if q != [] {
      StreamedLeavesOthers(handlers, behaviors, o, q[..|q| - 1], t);
    }
  }

  /** `Publish`: every registered event handler is started; `Task.WhenAll`
      then rethrows the first fault in handler order, if any. */
  function Publish(handlers: seq<Message -> Outcome>, e: Message): (r: Option<Exception>)
    ensures r.None? <==> forall i :: 0 <= i < |handlers| ==> handlers[i](e).Ok?
    ensures r.Some? ==> exists i :: 0 <= i < |handlers| && handlers[i](e) == Fault(r.value)
                                      && forall j :: 0 <= j < i ==> handlers[j](e).Ok?
  {
    if handlers == [] then None
    else if handlers[0](e).Fault? then Some(handlers[0](e).error)
    else
      var rest := Publish(handlers[1..], e);
      if rest.Some? then
        ghost var i :| 0 <= i < |handlers[1..]| && handlers[1..][i](e) == Fault(rest.value)
                       && forall j :: 0 <= j < i ==> handlers[1..][j](e).Ok?;
        assert handlers[i + 1](e) == Fault(rest.value);
        rest
      else rest
  }

  /** The inner `await foreach` of the stream loop: matching items are
      written to the channel one by one, in the order produced. */
  method Forward(items: seq<Value>, responseType: TypeTag, channel: ResponseChannel) returns (out: ResponseChannel)
    ensures out == channel.(items := channel.items + Forwarded(items, responseType))
  {
    out := channel;
    var i := 0;
    while i < |items|
      invariant 0 <= i <= |items|
      invariant out == channel.(items := channel.items + Forwarded(items[..i], responseType))
    {
      if Matches(items[i], responseType) {
        out := out.(items := out.items + [items[i]]);
      }
      assert items[..i + 1][..i] == items[..i];
      i := i + 1;
    }
    assert items[..i] == items;
  }

  class Mediator {
    const commandHandlers: map<HandlerKey, Message -> Outcome>
    const pipelineBehaviors: HandlerKey -> seq<Behavior>
    const streamHandlers: map<TypeTag, StreamNext>
    const streamBehaviors: TypeTag -> seq<StreamBehavior>

    var commandQueue: seq<CommandEnvelope>
    var completions: map<nat, Completion>
    var streamQueue: seq<StreamEnvelope>
    var outputs: map<nat, ResponseChannel>
    var nextTicket: nat
    /** Tickets in the order their completion was set. */
    var processed: seq<nat>
    /** Exceptions passed to `LogError`, in order. */
    var errorLog: seq<Exception>

    ghost predicate Valid()
      reads this
    {
      && PendingQueue(commandQueue, completions)
      && (forall t :: t in completions ==> t < nextTicket)
      && OpenStreamQueue(streamQueue, outputs)
      && (forall t :: t in outputs ==> t < nextTicket)
    }

    constructor(commandHandlers: map<HandlerKey, Message -> Outcome>, pipelineBehaviors: HandlerKey -> seq<Behavior>,
                streamHandlers: map<TypeTag, StreamNext>, streamBehaviors: TypeTag -> seq<StreamBehavior>)
      ensures Valid()
      ensures this.commandHandlers == commandHandlers && this.pipelineBehaviors == pipelineBehaviors
      ensures this.streamHandlers == streamHandlers && this.streamBehaviors == streamBehaviors
      ensures commandQueue == [] && completions == map[] && streamQueue == [] && outputs == map[]
      ensures processed == [] && errorLog == []
    {
      this.commandHandlers := commandHandlers;
      this.pipelineBehaviors := pipelineBehaviors;
      this.streamHandlers := streamHandlers;
      this.streamBehaviors := streamBehaviors;
      commandQueue, completions, streamQueue, outputs := [], map[], [], map[];
      nextTicket, processed, errorLog := 0, [], [];
    }

    /** `Send<TResponse>(command)`: a fresh completion slot and an envelope at
        the back of the command queue. The caller awaits the slot. */
    method Send(command: Message, responseType: TypeTag) returns (ticket: nat)
      requires Valid()
      modifies this
      ensures Valid()
      ensures ticket == old(nextTicket) && ticket !in old(completions)
      ensures commandQueue == old(commandQueue) + [CommandEnvelope(ticket, command, responseType)]
      ensures completions == old(completions)[ticket := Pending]
      ensures nextTicket == old(nextTicket) + 1
      ensures streamQueue == old(streamQueue) && outputs == old(outputs)
      ensures processed == old(processed) && errorLog == old(errorLog)
    {
      ticket := nextTicket;
      commandQueue := commandQueue + [CommandEnvelope(ticket, command, responseType)];
      completions := completions[ticket := Pending];
      nextTicket := nextTicket + 1;
    }

    /** `Send(ICommand)` is `Send<Unit>`. */
    method SendUnit(command: Message) returns (ticket: nat)
      requires Valid()
      modifies this
      ensures Valid()
      ensures ticket == old(nextTicket)
      ensures commandQueue == old(commandQueue) + [CommandEnvelope(ticket, command, UnitTag)]
      ensures completions == old(completions)[ticket := Pending]
      ensures nextTicket == old(nextTicket) + 1
      ensures streamQueue == old(streamQueue) && outputs == old(outputs)
      ensures processed == old(processed) && errorLog == old(errorLog)
    {
      ticket := Send(command, UnitTag);
    }

    /** `Query<TResponse>` goes through the same command queue as `Send`. */
    method Query(query: Message, responseType: TypeTag) returns (ticket: nat)
      requires Valid()
      modifies this
      ensures Valid()
      ensures ticket == old(nextTicket)
      ensures commandQueue == old(commandQueue) + [CommandEnvelope(ticket, query, responseType)]
      ensures completions == old(completions)[ticket := Pending]
      ensures nextTicket == old(nextTicket) + 1
      ensures streamQueue == old(streamQueue) && outputs == old(outputs)
      ensures processed == old(processed) && errorLog == old(errorLog)
    {
      ticket := Send(query, responseType);
    }

    /** `CreateStream<TResponse>(message)`: a fresh open output channel and an
        envelope at the back of the stream queue. */
    method CreateStream(message: Message, responseType: TypeTag) returns (ticket: nat)
      requires Valid()
      modifies this
      ensures Valid()
      ensures ticket == old(nextTicket) && ticket !in old(outputs)
      ensures streamQueue == old(streamQueue) + [StreamEnvelope(ticket, message, responseType)]
      ensures outputs == old(outputs)[ticket := ResponseChannel([], false)]
      ensures nextTicket == old(nextTicket) + 1
      ensures commandQueue == old(commandQueue) && completions == old(completions)
      ensures processed == old(processed) && errorLog == old(errorLog)
    {
      ticket := nextTicket;
      streamQueue := streamQueue + [StreamEnvelope(ticket, message, responseType)];
      outputs := outputs[ticket := ResponseChannel([], false)];
      nextTicket := nextTicket + 1;
    }

    /** One pass of the command loop: the front envelope's pipeline runs and
        its completion is set; a fault is also logged. */
    method ProcessFrontCommand()
      requires Valid() && commandQueue != []
      modifies this
      ensures Valid()
      ensures var env := old(commandQueue[0]);
              var run := Dispatch(commandHandlers, pipelineBehaviors, env);
              && commandQueue == old(commandQueue[1..])
              && completions == old(completions)[env.ticket := Resolution(run.outcome)]
              && processed == old(processed) + [env.ticket]
              && errorLog == old(errorLog) + (if run.outcome.Fault? then [run.outcome.error] else [])
      ensures streamQueue == old(streamQueue) && outputs == old(outputs) && nextTicket == old(nextTicket)
    {
      var env := commandQueue[0];
      var run := Dispatch(commandHandlers, pipelineBehaviors, env);
      PopPendingQueue(commandQueue, completions, Resolution(run.outcome));
      commandQueue := commandQueue[1..];
      completions := completions[env.ticket := Resolution(run.outcome)];
      processed := processed + [env.ticket];
      if run.outcome.Fault? {
        errorLog := errorLog + [run.outcome.error];
      }
    }

    /** `ProcessCommands`: envelopes are taken from the front of the queue one
        at a time; each one's pipeline runs to the end and its completion is
        set, to the result or to the exception, before the next is taken. */
    method ProcessCommands()
      requires Valid()
      modifies this
      ensures Valid()
      ensures commandQueue == []
      ensures completions == Resolved(commandHandlers, pipelineBehaviors, old(completions), old(commandQueue))
      ensures forall i :: 0 <= i < |old(commandQueue)| ==>
                old(commandQueue)[i].ticket in completions
                && completions[old(commandQueue)[i].ticket] ==
                     Resolution(Dispatch(commandHandlers, pipelineBehaviors, old(commandQueue)[i]).outcome)
      ensures processed == old(processed) + Tickets(old(commandQueue))
      ensures errorLog == old(errorLog) + CommandFaults(commandHandlers, pipelineBehaviors, old(commandQueue))
      ensures streamQueue == old(streamQueue) && outputs == old(outputs) && nextTicket == old(nextTicket)
    {
      ghost var q := commandQueue;
      ghost var k := 0;
      while commandQueue != []
        invariant 0 <= k <= |q| && commandQueue == q[k..]
        invariant Valid()
        invariant completions == Resolved(commandHandlers, pipelineBehaviors, old(completions), q[..k])
        invariant processed == old(processed) + Tickets(q[..k])
        invariant errorLog == old(errorLog) + CommandFaults(commandHandlers, pipelineBehaviors, q[..k])
        invariant streamQueue == old(streamQueue) && outputs == old(outputs) && nextTicket == old(nextTicket)
        decreases |commandQueue|
      {
        CommandStep(commandHandlers, pipelineBehaviors, old(completions), q, k);
        ProcessFrontCommand();
        k := k + 1;
      }
      assert q[..k] == q;
      EachEnvelopeResolvedOnce(commandHandlers, pipelineBehaviors, old(completions), q);
    }

    /** One pass of the stream loop: the front envelope's stream pipeline
        runs, its matching items are written to its channel, a fault is
        logged, and the channel is completed. */
    method ProcessFrontStream()
      requires Valid() && streamQueue != []
      modifies this
      ensures Valid()
      ensures var env := old(streamQueue[0]);
              var run := StreamDispatch(streamHandlers, streamBehaviors, env);
              && streamQueue == old(streamQueue[1..])
              && env.ticket in old(outputs)
              && outputs == old(outputs)[env.ticket := ResponseChannel(old(outputs)[env.ticket].items
                                                                        + Forwarded(run.items, env.responseType), true)]
              && errorLog == old(errorLog) + (if run.fault.Some? then [run.fault.value] else [])
      ensures commandQueue == old(commandQueue) && completions == old(completions)
      ensures processed == old(processed) && nextTicket == old(nextTicket)
    {
      var env := streamQueue[0];
      var run := StreamDispatch(streamHandlers, streamBehaviors, env);
      var channel := Forward(run.items, env.responseType, outputs[env.ticket]);
      PopOpenStreamQueue(streamQueue, outputs, channel.(completed := true));
      streamQueue := streamQueue[1..];
      if run.fault.Some? {
        errorLog := errorLog + [run.fault.value];
      }
      outputs := outputs[env.ticket := channel.(completed := true)];
    }

    /** `ProcessStreams`: envelopes are taken from the front of the queue one
        at a time; items of exactly the requested runtime type are written to
        the envelope's channel in order, a fault is logged and swallowed, and
        the channel is completed on every path. */
    method ProcessStreams()
      requires Valid()
      modifies this
      ensures Valid()
      ensures streamQueue == []
      ensures outputs == Streamed(streamHandlers, streamBehaviors, old(outputs), old(streamQueue))
      ensures forall i :: 0 <= i < |old(streamQueue)| ==>
                old(streamQueue)[i].ticket in outputs
                && outputs[old(streamQueue)[i].ticket] ==
                     ResponseChannel(Forwarded(StreamDispatch(streamHandlers, streamBehaviors, old(streamQueue)[i]).items,
                                               old(streamQueue)[i].responseType), true)
      ensures errorLog == old(errorLog) + StreamFaults(streamHandlers, streamBehaviors, old(streamQueue))
      ensures commandQueue == old(commandQueue) && completions == old(completions)
      ensures processed == old(processed) && nextTicket == old(nextTicket)
    {
      ghost var q := streamQueue;
      ghost var k := 0;
      while streamQueue != []
        invariant 0 <= k <= |q| && streamQueue == q[k..]
        invariant Valid()
        invariant outputs == Streamed(streamHandlers, streamBehaviors, old(outputs), q[..k])
        invariant errorLog == old(errorLog) + StreamFaults(streamHandlers, streamBehaviors, q[..k])
        invariant commandQueue == old(commandQueue) && completions == old(completions)
        invariant processed == old(processed) && nextTicket == old(nextTicket)
        decreases |streamQueue|
      {
        StreamStep(streamHandlers, streamBehaviors, old(outputs), q, k);
        ProcessFrontStream();
        k := k + 1;
      }
      assert q[..k] == q;
      EveryChannelCompleted(streamHandlers, streamBehaviors, old(outputs), q);
    }
  }
}
