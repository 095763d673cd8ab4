/** `ServiceCollectionExtensions.AddChannelMediator` and `MediatorOptions`:
    handler registration from scanned assemblies and the fixed registration of
    the pipeline behaviours. Reflection is replaced by type references: a
    scanned type lists the interfaces it implements, and a generic type is
    named by its definition. */
module ServiceCollectionExtensions {
  import opened Kernel
  import opened PipelineComposition
  import MediatorDispatch

  /** The generic type definitions the registration code names. */
  datatype GenericDef =
    | ICommandHandler | IQueryHandler | IEventHandler | IStreamMessageHandler
    | IPipelineBehavior | IStreamPipelineBehavior
    | LoggingPipelineBehavior | ValidationBehavior | CachingPipelineBehavior
    | RetryPolicyPipelineBehavior | CircuitBreakerPipelineBehavior | TransactionPipelineBehavior
    | OtherGeneric(name: string)

  /** A type: non-generic, a constructed generic type, or an open generic
      type definition. */
  datatype TypeRef = Named(tag: TypeTag) | Closed(def: GenericDef, args: seq<TypeTag>) | Open(def: GenericDef)
  {
    predicate IsGenericType() { !Named? }
    predicate IsGenericTypeDefinition() { Open? }
    function GenericTypeDefinition(): GenericDef
      requires IsGenericType()
    {
      def
    }
  }

  datatype Lifetime = Transient | Singleton

  datatype ServiceDescriptor = ServiceDescriptor(serviceType: TypeRef, implementationType: TypeRef, lifetime: Lifetime)

  /** A type found by `assembly.GetTypes()`, with `GetInterfaces()`. */
  datatype ScannedType = ScannedType(self: TypeRef, interfaces: seq<TypeRef>)

  type Assembly = seq<ScannedType>

  /** `IsHandlerInterface`: a generic type whose definition is one of the
      four handler interfaces. */
  predicate IsHandlerInterface(t: TypeRef)
    ensures t.Named? ==> !IsHandlerInterface(t)
    ensures t.IsGenericType() ==>
              (IsHandlerInterface(t) <==> t.def in {ICommandHandler, IQueryHandler, IEventHandler, IStreamMessageHandler})
    ensures IsHandlerInterface(t) ==> t.def != IPipelineBehavior && t.def != IStreamPipelineBehavior
  {
    if !t.IsGenericType() then false
    else
      var d := t.GenericTypeDefinition();
      d == ICommandHandler || d == IQueryHandler || d == IEventHandler || d == IStreamMessageHandler
  }

  /** The registrations the inner loop makes for one handler type. */
  function InterfaceRegistrations(impl: TypeRef, interfaces: seq<TypeRef>): (ds: seq<ServiceDescriptor>)
    ensures |ds| <= |interfaces|
    ensures forall i :: 0 <= i < |ds| ==>
              ds[i].implementationType == impl && ds[i].lifetime == Transient && IsHandlerInterface(ds[i].serviceType)
  {
    if interfaces == [] then []
    else
      var last := interfaces[|interfaces| - 1];
      InterfaceRegistrations(impl, interfaces[..|interfaces| - 1])
      + (if IsHandlerInterface(last) then [ServiceDescriptor(last, impl, Transient)] else [])
  }

  predicate HasHandlerInterface(t: ScannedType)
  {
    exists i :: 0 <= i < |t.interfaces| && IsHandlerInterface(t.interfaces[i])
  }

  /** The registrations `RegisterHandlers` makes for an assembly, in order. */
  function HandlerRegistrations(assembly: Assembly): (ds: seq<ServiceDescriptor>)
    ensures forall i :: 0 <= i < |ds| ==> ds[i].lifetime == Transient && IsHandlerInterface(ds[i].serviceType)
  {
    if assembly == [] then []
    else
      var last := assembly[|assembly| - 1];
      HandlerRegistrations(assembly[..|assembly| - 1])
      + (if HasHandlerInterface(last) then InterfaceRegistrations(last.self, last.interfaces) else [])
  }

  /** The registrations for every scanned assembly, in the order added. */
  function AllHandlerRegistrations(assemblies: seq<Assembly>): seq<ServiceDescriptor>
  {
    if assemblies == [] then []
    else AllHandlerRegistrations(assemblies[..|assemblies| - 1]) + HandlerRegistrations(assemblies[|assemblies| - 1])
  }

  lemma {:induction false} InterfaceRegistrationsExact(impl: TypeRef, interfaces: seq<TypeRef>, d: ServiceDescriptor)
    ensures d in InterfaceRegistrations(impl, interfaces) <==>
              d.serviceType in interfaces && IsHandlerInterface(d.serviceType)
              && d.implementationType == impl && d.lifetime == Transient
    decreases |interfaces|
  {
    if interfaces != [] {
      var init := interfaces[..|interfaces| - 1];
      InterfaceRegistrationsExact(impl, init, d);
      assert interfaces == init + [interfaces[|interfaces| - 1]];
    }
  }

  /** Each handler interface a scanned type implements gets its own transient
      registration mapping it to that type, and nothing else is registered. */
  lemma {:induction false} HandlerRegistrationsExact(assembly: Assembly, d: ServiceDescriptor)
    ensures d in HandlerRegistrations(assembly) <==>
              exists k :: 0 <= k < |assembly|
                && d.serviceType in assembly[k].interfaces && IsHandlerInterface(d.serviceType)
                && d.implementationType == assembly[k].self && d.lifetime == Transient
    decreases |assembly|
  {
    if assembly != [] {
      var init := assembly[..|assembly| - 1];
      var last := assembly[|assembly| - 1];
      HandlerRegistrationsExact(init, d);
      InterfaceRegistrationsExact(last.self, last.interfaces, d);
      if d in HandlerRegistrations(assembly) && d !in HandlerRegistrations(init) {
        assert d.serviceType in last.interfaces;
      }
      if exists k :: 0 <= k < |assembly|
           && d.serviceType in assembly[k].interfaces && IsHandlerInterface(d.serviceType)
           && d.implementationType == assembly[k].self && d.lifetime == Transient {
        var k :| 0 <= k < |assembly|
           && d.serviceType in assembly[k].interfaces && IsHandlerInterface(d.serviceType)
           && d.implementationType == assembly[k].self && d.lifetime == Transient;
        if k < |assembly| - 1 {
          assert init[k] == assembly[k];
        } else {
          var j :| 0 <= j < |last.interfaces| && last.interfaces[j] == d.serviceType;
          assert HasHandlerInterface(last);
        }
      }
    }
  }

  /** The six behaviours `RegisterPipelineBehaviors` adds, in order. */
  const DefaultBehaviors: seq<GenericDef> :=
    [LoggingPipelineBehavior, ValidationBehavior, CachingPipelineBehavior,
     RetryPolicyPipelineBehavior, CircuitBreakerPipelineBehavior, TransactionPipelineBehavior]

  function BehaviorRegistrations(defs: seq<GenericDef>): (ds: seq<ServiceDescriptor>)
    ensures |ds| == |defs|
    ensures forall i :: 0 <= i < |defs| ==> ds[i] == ServiceDescriptor(Open(IPipelineBehavior), Open(defs[i]), Transient)
  {
    if defs == [] then []
    else [ServiceDescriptor(Open(IPipelineBehavior), Open(defs[0]), Transient)] + BehaviorRegistrations(defs[1..])
  }

  /** What `GetServices(IPipelineBehavior<,>)` resolves from a registration
      list: the implementations registered for the open interface, in
      registration order. */
  function ResolvedBehaviors(ds: seq<ServiceDescriptor>): seq<TypeRef>
  {
    if ds == [] then []
    else
      var last := ds[|ds| - 1];
      ResolvedBehaviors(ds[..|ds| - 1])
      + (if last.serviceType == Open(IPipelineBehavior) then [last.implementationType] else [])
  }

  lemma {:induction false} ResolvedBehaviorsAppend(a: seq<ServiceDescriptor>, b: seq<ServiceDescriptor>)
    ensures ResolvedBehaviors(a + b) == ResolvedBehaviors(a) + ResolvedBehaviors(b)
    decreases |b|
  {
    if b == [] {
      assert a + b == a;
    } else {
      ResolvedBehaviorsAppend(a, b[..|b| - 1]);
      assert (a + b)[..|a + b| - 1] == a + b[..|b| - 1];
    }
  }

  lemma {:induction false} NoBehaviorsFromHandlers(assemblies: seq<Assembly>)
    ensures ResolvedBehaviors(AllHandlerRegistrations(assemblies)) == []
    decreases |assemblies|
  {
    if assemblies != [] {
      NoBehaviorsFromHandlers(assemblies[..|assemblies| - 1]);
      var a := assemblies[|assemblies| - 1];
      ResolvedBehaviorsAppend(AllHandlerRegistrations(assemblies[..|assemblies| - 1]), HandlerRegistrations(a));
      NoBehaviorsFromAssembly(a);
    }
  }

  lemma {:induction false} NoBehaviorsFromAssembly(assembly: Assembly)
    ensures ResolvedBehaviors(HandlerRegistrations(assembly)) == []
    decreases |assembly|
  {
    if assembly != [] {
      var last := assembly[|assembly| - 1];
      NoBehaviorsFromAssembly(assembly[..|assembly| - 1]);
      ResolvedBehaviorsAppend(HandlerRegistrations(assembly[..|assembly| - 1]),
                              if HasHandlerInterface(last) then InterfaceRegistrations(last.self, last.interfaces) else []);
      NoBehaviorsFromInterfaces(last.self, last.interfaces);
    }
  }

  lemma {:induction false} NoBehaviorsFromInterfaces(impl: TypeRef, interfaces: seq<TypeRef>)
    ensures ResolvedBehaviors(InterfaceRegistrations(impl, interfaces)) == []
    decreases |interfaces|
  {
    if interfaces != [] {
      var last := interfaces[|interfaces| - 1];
      NoBehaviorsFromInterfaces(impl, interfaces[..|interfaces| - 1]);
      ResolvedBehaviorsAppend(InterfaceRegistrations(impl, interfaces[..|interfaces| - 1]),
                              if IsHandlerInterface(last) then [ServiceDescriptor(last, impl, Transient)] else []);
    }
  }

  lemma {:induction false} ResolvedBehaviorsOfDefaults(defs: seq<GenericDef>)
    ensures ResolvedBehaviors(BehaviorRegistrations(defs)) == seq(|defs|, i requires 0 <= i < |defs| => Open(defs[i]))
    decreases |defs|
  {
    if defs != [] {
      var init := defs[..|defs| - 1];
      ResolvedBehaviorsOfDefaults(init);
      assert BehaviorRegistrations(defs)[..|defs| - 1] == BehaviorRegistrations(init);
    }
  }

  /** `IServiceCollection` */
  class ServiceCollection {
    var descriptors: seq<ServiceDescriptor>

    constructor()
      ensures descriptors == []
    {
      descriptors := [];
    }

    method AddTransient(serviceType: TypeRef, implementationType: TypeRef)
      modifies this
      ensures descriptors == old(descriptors) + [ServiceDescriptor(serviceType, implementationType, Transient)]
    {
      descriptors := descriptors + [ServiceDescriptor(serviceType, implementationType, Transient)];
    }

    method AddSingleton(serviceType: TypeRef, implementationType: TypeRef)
      modifies this
      ensures descriptors == old(descriptors) + [ServiceDescriptor(serviceType, implementationType, Singleton)]
    {
      descriptors := descriptors + [ServiceDescriptor(serviceType, implementationType, Singleton)];
    }
  }

  /** `MediatorOptions` */
  class MediatorOptions {
    var assembliesToScan: seq<Assembly>

    constructor()
      ensures assembliesToScan == []
    {
      assembliesToScan := [];
    }

    method AddAssembly(assembly: Assembly) returns (self: MediatorOptions)
      modifies this
      ensures self == this
      ensures assembliesToScan == old(assembliesToScan) + [assembly]
    {
      assembliesToScan := assembliesToScan + [assembly];
      self := this;
    }

    /** `AddAssemblyOf<T>()`: `typeof(T).Assembly` is resolved by reflection
        and given here as `assemblyOfT`. */
    method AddAssemblyOf(assemblyOfT: Assembly) returns (self: MediatorOptions)
      modifies this
      ensures self == this
      ensures assembliesToScan == old(assembliesToScan) + [assemblyOfT]
    {
      self := AddAssembly(assemblyOfT);
    }
  }

  method RegisterHandlers(services: ServiceCollection, assembly: Assembly)
    modifies services
    ensures services.descriptors == old(services.descriptors) + HandlerRegistrations(assembly)
  {
    var k := 0;
    while k < |assembly|
      invariant 0 <= k <= |assembly|
      invariant services.descriptors == old(services.descriptors) + HandlerRegistrations(assembly[..k])
    {
      var t := assembly[k];
      if HasHandlerInterface(t) {
        var j := 0;
        ghost var before := services.descriptors;
        while j < |t.interfaces|
          invariant 0 <= j <= |t.interfaces|
          invariant services.descriptors == before + InterfaceRegistrations(t.self, t.interfaces[..j])
        {
          if IsHandlerInterface(t.interfaces[j]) {
            services.AddTransient(t.interfaces[j], t.self);
          }
          assert t.interfaces[..j + 1][..j] == t.interfaces[..j];
          j := j + 1;
        }
        assert t.interfaces[..j] == t.interfaces;
      }
      assert assembly[..k + 1][..k] == assembly[..k];
      k := k + 1;
    }
    assert assembly[..k] == assembly;
  }

  method RegisterPipelineBehaviors(services: ServiceCollection)
    modifies services
    ensures services.descriptors == old(services.descriptors) + BehaviorRegistrations(DefaultBehaviors)
  {
    services.AddTransient(Open(IPipelineBehavior), Open(LoggingPipelineBehavior));
    services.AddTransient(Open(IPipelineBehavior), Open(ValidationBehavior));
    services.AddTransient(Open(IPipelineBehavior), Open(CachingPipelineBehavior));
    services.AddTransient(Open(IPipelineBehavior), Open(RetryPolicyPipelineBehavior));
    services.AddTransient(Open(IPipelineBehavior), Open(CircuitBreakerPipelineBehavior));
    services.AddTransient(Open(IPipelineBehavior), Open(TransactionPipelineBehavior));
  }

  /** The non-generic service and implementation types of the two
      singletons `AddChannelMediator` registers first. */
  const IPipelineRegistryType: TypeRef := Named(TypeTag("Micro.CQRS.Core", "IPipelineRegistry"))
  const PipelineRegistryType: TypeRef := Named(TypeTag("Micro.CQRS.Core", "PipelineRegistry"))
  const IMediatorType: TypeRef := Named(TypeTag("Micro.CQRS.Core", "IMediator"))
  const MediatorType: TypeRef := Named(TypeTag("Micro.CQRS.Core", "Mediator"))

  const CoreServices: seq<ServiceDescriptor> :=
    [ServiceDescriptor(IPipelineRegistryType, PipelineRegistryType, Singleton),
     ServiceDescriptor(IMediatorType, MediatorType, Singleton)]

  /** `AddChannelMediator(configure)`, where the `configure` callback is the
      list of assemblies it adds to the options. */
  method AddChannelMediator(services: ServiceCollection, configure: seq<Assembly>) returns (result: ServiceCollection)
    modifies services
    ensures result == services
    ensures services.descriptors ==
              old(services.descriptors) + CoreServices + AllHandlerRegistrations(configure)
              + BehaviorRegistrations(DefaultBehaviors)
  {
    var options := new MediatorOptions();
    var i := 0;
    while i < |configure|
      invariant 0 <= i <= |configure|
      invariant options.assembliesToScan == configure[..i]
      invariant services.descriptors == old(services.descriptors)
    {
      var _ := options.AddAssembly(configure[i]);
      i := i + 1;
    }
    assert configure[..i] == configure;
    services.AddSingleton(IPipelineRegistryType, PipelineRegistryType);
    services.AddSingleton(IMediatorType, MediatorType);
    ghost var start := services.descriptors;
    assert start == old(services.descriptors) + CoreServices;
    var k := 0;
    while k < |options.assembliesToScan|
      invariant 0 <= k <= |options.assembliesToScan|
      invariant options.assembliesToScan == configure
      invariant services.descriptors == start + AllHandlerRegistrations(options.assembliesToScan[..k])
    {
      RegisterHandlers(services, options.assembliesToScan[k]);
      assert options.assembliesToScan[..k + 1][..k] == options.assembliesToScan[..k];
      k := k + 1;
    }
    assert options.assembliesToScan[..k] == configure;
    RegisterPipelineBehaviors(services);
    result := services;
  }

  /** The behaviours resolved after `AddChannelMediator` on an empty
      collection are the six defaults in registration order, whatever the
      scanned assemblies contain. */
  lemma DefaultResolvedBehaviors(assemblies: seq<Assembly>)
    ensures ResolvedBehaviors(CoreServices + AllHandlerRegistrations(assemblies) + BehaviorRegistrations(DefaultBehaviors))
              == [Open(LoggingPipelineBehavior), Open(ValidationBehavior), Open(CachingPipelineBehavior),
                  Open(RetryPolicyPipelineBehavior), Open(CircuitBreakerPipelineBehavior),
                  Open(TransactionPipelineBehavior)]
  {
    var hs := AllHandlerRegistrations(assemblies);
    NoBehaviorsFromHandlers(assemblies);
    ResolvedBehaviorsAppend(CoreServices, hs);
    ResolvedBehaviorsAppend(CoreServices + hs, BehaviorRegistrations(DefaultBehaviors));
    ResolvedBehaviorsOfDefaults(DefaultBehaviors);
    assert ResolvedBehaviors(CoreServices) == [] by {
      var one := CoreServices[..1];
      assert one[..0] == [] && one[0].serviceType == IPipelineRegistryType;
      assert ResolvedBehaviors(one) == ResolvedBehaviors([]);
      assert CoreServices[1].serviceType == IMediatorType;
      assert ResolvedBehaviors(CoreServices) == ResolvedBehaviors(one);
    }
    var bs := ResolvedBehaviors(CoreServices + hs + BehaviorRegistrations(DefaultBehaviors));
    assert bs == seq(6, i requires 0 <= i < 6 => Open(DefaultBehaviors[i]));
  }

  /** Six behaviours nest first-outermost. */
  lemma NestSix<B>(a: B, b: B, c: B, d: B, e: B, f: B)
    ensures Nest([a, b, c, d, e, f]) == Wrap(a, Wrap(b, Wrap(c, Wrap(d, Wrap(e, Wrap(f, Terminal))))))
  {
    assert [f][1..] == [];
    assert NestOnto([f], Terminal) == Wrap(f, Terminal);
    assert [e, f][1..] == [f];
    assert NestOnto([e, f], Terminal) == Wrap(e, NestOnto([f], Terminal));
    assert [d, e, f][1..] == [e, f];
    assert NestOnto([d, e, f], Terminal) == Wrap(d, NestOnto([e, f], Terminal));
    assert [c, d, e, f][1..] == [d, e, f];
    assert NestOnto([c, d, e, f], Terminal) == Wrap(c, NestOnto([d, e, f], Terminal));
    assert [b, c, d, e, f][1..] == [c, d, e, f];
    assert NestOnto([b, c, d, e, f], Terminal) == Wrap(b, NestOnto([c, d, e, f], Terminal));
    assert [a, b, c, d, e, f][1..] == [b, c, d, e, f];
    assert NestOnto([a, b, c, d, e, f], Terminal) == Wrap(a, NestOnto([b, c, d, e, f], Terminal));
  }

  /** Whatever the scanned assemblies contain, the registrations
      `AddChannelMediator` makes on an empty collection ask for a pipeline
      with Logging outermost and Transaction next to the handler. */
  lemma DefaultPipelineOrder(assemblies: seq<Assembly>)
    ensures var ds := CoreServices + AllHandlerRegistrations(assemblies) + BehaviorRegistrations(DefaultBehaviors);
            var bs := ResolvedBehaviors(ds);
            && bs == [Open(LoggingPipelineBehavior), Open(ValidationBehavior), Open(CachingPipelineBehavior),
                      Open(RetryPolicyPipelineBehavior), Open(CircuitBreakerPipelineBehavior),
                      Open(TransactionPipelineBehavior)]
            && ComposePipeline(bs) ==
                 Wrap(Open(LoggingPipelineBehavior), Wrap(Open(ValidationBehavior), Wrap(Open(CachingPipelineBehavior),
                 Wrap(Open(RetryPolicyPipelineBehavior), Wrap(Open(CircuitBreakerPipelineBehavior),
                 Wrap(Open(TransactionPipelineBehavior), Terminal))))))
  {
    DefaultResolvedBehaviors(assemblies);
    NestSix(Open(LoggingPipelineBehavior), Open(ValidationBehavior), Open(CachingPipelineBehavior),
            Open(RetryPolicyPipelineBehavior), Open(CircuitBreakerPipelineBehavior), Open(TransactionPipelineBehavior));
  }

  /** What `GetServices(IPipelineBehavior<M, R>)` builds from open
      registrations: each open behaviour closed over `M` and `R`. */
  function CloseBehaviors(open: seq<TypeRef>, m: TypeTag, r: TypeTag): (cs: seq<TypeRef>)
    ensures |cs| == |open|
    ensures forall i :: 0 <= i < |open| && open[i].Open? ==> cs[i] == Closed(open[i].def, [m, r])
  {
    seq(|open|, i requires 0 <= i < |open| => if open[i].Open? then Closed(open[i].def, [m, r]) else open[i])
  }

  /** A closed behaviour converts to the invariant
      `IPipelineBehavior<IMessage, object>` only when closed over exactly
      `IMessage` and `object`. */
  predicate ConvertsToErasedBehavior(t: TypeRef)
  {
    t.Closed? && t.args == [IMessageTag, ObjectTag]
  }

  /** For any message type, the six default behaviours fail the cast in
      `CreatePipeline`, so the composed pipeline is never built. */
  lemma DefaultPipelineNeverCreated(assemblies: seq<Assembly>, m: TypeTag, r: TypeTag)
    requires m != IMessageTag
    ensures var ds := CoreServices + AllHandlerRegistrations(assemblies) + BehaviorRegistrations(DefaultBehaviors);
            CreatePipeline(CloseBehaviors(ResolvedBehaviors(ds), m, r), ConvertsToErasedBehavior) == None
  {
    DefaultResolvedBehaviors(assemblies);
    var ds := CoreServices + AllHandlerRegistrations(assemblies) + BehaviorRegistrations(DefaultBehaviors);
    var cs := CloseBehaviors(ResolvedBehaviors(ds), m, r);
    assert cs[0] == Closed(LoggingPipelineBehavior, [m, r]);
    assert !ConvertsToErasedBehavior(cs[0]);
  }

  /** The behaviour instances the provider activates for closed behaviour
      types, one per type and in order. */
  function ActivateAll(activate: TypeRef -> MediatorDispatch.Behavior, ts: seq<TypeRef>): (bs: seq<MediatorDispatch.Behavior>)
    ensures |bs| == |ts| && forall i :: 0 <= i < |ts| ==> bs[i] == activate(ts[i])
  {
    if ts == [] then [] else [activate(ts[0])] + ActivateAll(activate, ts[1..])
  }

  /** After `AddChannelMediator`, every command or query whose handler is
      registered completes with the cast's `InvalidCastException`: the
      behaviours the mediator receives are the instances activated for the
      six default registrations closed over the message and response types,
      and the mediator's loop cannot cast them. */
  lemma SendAfterAddChannelMediatorFaults(assemblies: seq<Assembly>,
                                          handlers: map<MediatorDispatch.HandlerKey, Message -> Outcome>,
                                          behaviors: MediatorDispatch.HandlerKey -> seq<MediatorDispatch.Behavior>,
                                          activate: TypeRef -> MediatorDispatch.Behavior,
                                          env: MediatorDispatch.CommandEnvelope)
    requires MediatorDispatch.HandlerKey(env.command.runtimeType, env.responseType) in handlers
    requires behaviors(MediatorDispatch.HandlerKey(env.command.runtimeType, env.responseType)) ==
               ActivateAll(activate, CloseBehaviors(
                 ResolvedBehaviors(CoreServices + AllHandlerRegistrations(assemblies) + BehaviorRegistrations(DefaultBehaviors)),
                 env.command.runtimeType, env.responseType))
    requires env.command.runtimeType != IMessageTag
    ensures var key := MediatorDispatch.HandlerKey(env.command.runtimeType, env.responseType);
            MediatorDispatch.Dispatch(handlers, behaviors, env) == Run(Fault(MediatorDispatch.BehaviorCastFailure(key)), [])
  {
    DefaultResolvedBehaviors(assemblies);
    MediatorDispatch.BehaviorsMakeDispatchFault(handlers, behaviors, env);
  }
}
