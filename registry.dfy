/** `PipelineRegistry`: a get-or-add map from message type to a mutable
    `PipelineConfiguration`, whose behaviour types are registered with the
    service collection each time the type is configured. Whether a generic
    definition is assignable to `IPipelineBehavior<,>` or
    `IStreamPipelineBehavior<>` is a reflection query, given to the registry as
    `assignable`. */
module PipelineRegistryCore {
  import opened Kernel
  import opened ServiceCollectionExtensions

  datatype PipelineType = CommandPipeline | QueryPipeline | MessagePipeline | StreamPipeline

  class PipelineConfiguration {
    var behaviorTypes: seq<TypeRef>
    var pipelineType: PipelineType

    constructor()
      ensures behaviorTypes == [] && pipelineType == CommandPipeline
    {
      behaviorTypes := [];
      pipelineType := CommandPipeline;
    }
  }

  /** The `configure` callback: what it leaves in the configuration's
      `BehaviorTypes` and `PipelineType`, given what it finds there. It may
      add, remove, reorder or clear behaviour types. */
  datatype ConfigureAction = ConfigureAction(update: (seq<TypeRef>, PipelineType) -> (seq<TypeRef>, PipelineType))

  /** `_services.Any(x => x.ServiceType == t)` */
  predicate HasService(ds: seq<ServiceDescriptor>, t: TypeRef)
  {
    exists i :: 0 <= i < |ds| && ds[i].serviceType == t
  }

  /** One iteration of `RegisterBehaviorTypes`. */
  function RegisterOne(assignable: (GenericDef, TypeRef) -> bool, ds: seq<ServiceDescriptor>, t: TypeRef)
    : (r: seq<ServiceDescriptor>)
    ensures |ds| <= |r| <= |ds| + 1 && r[..|ds|] == ds
    ensures !t.IsGenericTypeDefinition() ==> HasService(r, t)
    ensures |r| == |ds| + 1 ==> r[|ds|].implementationType == t && r[|ds|].lifetime == Transient
  {
    if t.IsGenericTypeDefinition() then
      if assignable(IPipelineBehavior, t) then ds + [ServiceDescriptor(Open(IPipelineBehavior), t, Transient)]
      else if assignable(IStreamPipelineBehavior, t) then ds + [ServiceDescriptor(Open(IStreamPipelineBehavior), t, Transient)]
      else ds
    else if HasService(ds, t) then ds
    else
      var r := ds + [ServiceDescriptor(t, t, Transient)];
      assert r[|ds|].serviceType == t;
      r
  }

  /** The registrations after `RegisterBehaviorTypes(ts)`. */
  function Registered(assignable: (GenericDef, TypeRef) -> bool, ds: seq<ServiceDescriptor>, ts: seq<TypeRef>)
    : (r: seq<ServiceDescriptor>)
    ensures |ds| <= |r| && r[..|ds|] == ds
  {
    if ts == [] then ds
    else RegisterOne(assignable, Registered(assignable, ds, ts[..|ts| - 1]), ts[|ts| - 1])
  }

  function CountService(ds: seq<ServiceDescriptor>, t: TypeRef): nat
  {
    if ds == [] then 0
    else CountService(ds[..|ds| - 1], t) + (if ds[|ds| - 1].serviceType == t then 1 else 0)
  }

  function CountDescriptor(ds: seq<ServiceDescriptor>, d: ServiceDescriptor): nat
  {
    if ds == [] then 0
    else CountDescriptor(ds[..|ds| - 1], d) + (if ds[|ds| - 1] == d then 1 else 0)
  }

  function Occurrences(ts: seq<TypeRef>, t: TypeRef): nat
  {
    if ts == [] then 0
    else Occurrences(ts[..|ts| - 1], t) + (if ts[|ts| - 1] == t then 1 else 0)
  }

  lemma {:induction false} CountServicePositive(ds: seq<ServiceDescriptor>, t: TypeRef)
    ensures CountService(ds, t) > 0 <==> HasService(ds, t)
    decreases |ds|
  {
    if ds != [] {
      var init := ds[..|ds| - 1];
      CountServicePositive(init, t);
      if HasService(ds, t) && ds[|ds| - 1].serviceType != t {
        var i :| 0 <= i < |ds| && ds[i].serviceType == t;
        assert init[i] == ds[i];
      }
      if HasService(init, t) {
        var i :| 0 <= i < |init| && init[i].serviceType == t;
        assert ds[i] == init[i];
      }
    }
  }

  /** A concrete behaviour type ends up registered once: it is added only
      when no registration for it exists yet, however often it is listed. */
  lemma {:induction false} ConcreteRegisteredOnce(assignable: (GenericDef, TypeRef) -> bool,
                                                  ds: seq<ServiceDescriptor>, ts: seq<TypeRef>, t: TypeRef)
    requires !t.IsGenericTypeDefinition()
    ensures CountService(Registered(assignable, ds, ts), t) ==
              if t in ts && CountService(ds, t) == 0 then 1 else CountService(ds, t)
    decreases |ts|
  {
    if ts != [] {
      var init := ts[..|ts| - 1];
      var last := ts[|ts| - 1];
      var before := Registered(assignable, ds, init);
      ConcreteRegisteredOnce(assignable, ds, init, t);
      assert ts == init + [last];
      assert t in ts <==> t in init || t == last;
      CountServicePositive(before, t);
      var after := RegisterOne(assignable, before, last);
      if after != before {
        assert after[..|after| - 1] == before;
      }
    }
  }

  /** An open generic pipeline behaviour is appended on every pass, with no
      duplicate check: each listing adds one more registration. */
  lemma {:induction false} OpenBehaviorReAdded(assignable: (GenericDef, TypeRef) -> bool,
                                               ds: seq<ServiceDescriptor>, ts: seq<TypeRef>, t: TypeRef)
    requires t.IsGenericTypeDefinition() && assignable(IPipelineBehavior, t)
    ensures var d := ServiceDescriptor(Open(IPipelineBehavior), t, Transient);
            CountDescriptor(Registered(assignable, ds, ts), d) == CountDescriptor(ds, d) + Occurrences(ts, t)
    decreases |ts|
  {
    if ts != [] {
      var init := ts[..|ts| - 1];
      var last := ts[|ts| - 1];
      var before := Registered(assignable, ds, init);
      OpenBehaviorReAdded(assignable, ds, init, t);
      var after := RegisterOne(assignable, before, last);
      if after != before {
        assert after[..|after| - 1] == before;
      }
    }
  }

  /** `typeof(D<..>).IsAssignableFrom(t)` for an open generic definition `t`,
      as .NET answers it: only `D<..>` itself. A class definition
      `X<TMessage, TResponse> : IPipelineBehavior<TMessage, TResponse>`
      implements the interface closed over its own type parameters, which is
      not the open definition. */
  predicate DefinitionAssignable(d: GenericDef, t: TypeRef)
  {
    t == Open(d)
  }

  /** The test the registry evidently means: the definition `t` implements
      `D<..>`. Each of the six behaviour classes implements
      `IPipelineBehavior<,>`. */
  predicate ImplementsDefinition(d: GenericDef, t: TypeRef)
  {
    t.Open? && (t.def == d || (d == IPipelineBehavior && t.def in DefaultBehaviors))
  }

  /** Open definitions of behaviour classes, as listed in a configuration. */
  predicate OpenClassDefinitions(ts: seq<TypeRef>)
  {
    forall i :: 0 <= i < |ts| ==>
      ts[i].Open? && ts[i].def != IPipelineBehavior && ts[i].def != IStreamPipelineBehavior
  }

  /** As written: under .NET's answer every open behaviour class in the list
      is skipped, so configuring a pipeline with them registers nothing. */
  lemma {:induction false} OpenBehaviorClassesDropped(ds: seq<ServiceDescriptor>, ts: seq<TypeRef>)
    requires OpenClassDefinitions(ts)
    ensures Registered(DefinitionAssignable, ds, ts) == ds
    decreases |ts|
  {
    if ts != [] {
      var init := ts[..|ts| - 1];
      assert OpenClassDefinitions(init) by {
        forall i | 0 <= i < |init| ensures init[i] == ts[i] { }
      }
      OpenBehaviorClassesDropped(ds, init);
    }
  }

  /** The open definitions `X<,>` of a list of generic classes. */
  function OpenDefinitions(defs: seq<GenericDef>): (ts: seq<TypeRef>)
    ensures |ts| == |defs| && forall i :: 0 <= i < |defs| ==> ts[i] == Open(defs[i])
  {
    if defs == [] then [] else OpenDefinitions(defs[..|defs| - 1]) + [Open(defs[|defs| - 1])]
  }

  /** Corrected: with the implements test, listing the default behaviour
      classes registers each under `IPipelineBehavior<,>`, in list order,
      exactly as `AddChannelMediator` does. */
  lemma {:induction false} OpenBehaviorClassesRegistered(ds: seq<ServiceDescriptor>, defs: seq<GenericDef>)
    requires forall i :: 0 <= i < |defs| ==> defs[i] in DefaultBehaviors
    ensures Registered(ImplementsDefinition, ds, OpenDefinitions(defs)) == ds + BehaviorRegistrations(defs)
    decreases |defs|
  {
    if defs != [] {
      var n := |defs|;
      var init := defs[..n - 1];
      OpenBehaviorClassesRegistered(ds, init);
      var ts := OpenDefinitions(defs);
      assert ts[..n - 1] == OpenDefinitions(init);
      assert ImplementsDefinition(IPipelineBehavior, ts[n - 1]);
      var all := BehaviorRegistrations(defs);
      assert all == BehaviorRegistrations(init) + [all[n - 1]];
    }
  }

  class PipelineRegistry {
    var configurations: map<TypeTag, PipelineConfiguration>
    const services: ServiceCollection
    const assignable: (GenericDef, TypeRef) -> bool

    /** Distinct message types never share a configuration object. */
    ghost predicate Valid()
      reads this
    {
      forall a, b :: a in configurations && b in configurations && a != b ==> configurations[a] != configurations[b]
    }

    constructor(services: ServiceCollection, assignable: (GenericDef, TypeRef) -> bool)
      ensures Valid()
      ensures configurations == map[] && this.services == services && this.assignable == assignable
    {
      configurations := map[];
      this.services := services;
      this.assignable := assignable;
    }

    /** `GetConfiguration`: the stored configuration, or a fresh default one
        that is stored first. */
    method GetConfiguration(messageType: TypeTag) returns (config: PipelineConfiguration)
      requires Valid()
      modifies this
      ensures Valid()
      ensures messageType in configurations && configurations[messageType] == config
      ensures messageType in old(configurations) ==>
                config == old(configurations)[messageType] && configurations == old(configurations)
      ensures messageType !in old(configurations) ==>
                && fresh(config)
                && configurations == old(configurations)[messageType := config]
                && config.behaviorTypes == [] && config.pipelineType == CommandPipeline
    {
      if messageType in configurations {
        config := configurations[messageType];
      } else {
        config := new PipelineConfiguration();
        configurations := configurations[messageType := config];
      }
    }

    /** `RegisterBehaviorTypes`: each listed type in turn; the duplicate
        check for concrete types reads the live registration list. */
    method RegisterBehaviorTypes(behaviorTypes: seq<TypeRef>)
      modifies services
      ensures services.descriptors == Registered(assignable, old(services.descriptors), behaviorTypes)
    {
      var i := 0;
      while i < |behaviorTypes|
        invariant 0 <= i <= |behaviorTypes|
        invariant services.descriptors == Registered(assignable, old(services.descriptors), behaviorTypes[..i])
      {
        var t := behaviorTypes[i];
        if t.IsGenericTypeDefinition() {
          if assignable(IPipelineBehavior, t) {
            services.AddTransient(Open(IPipelineBehavior), t);
          } else if assignable(IStreamPipelineBehavior, t) {
            services.AddTransient(Open(IStreamPipelineBehavior), t);
          }
        } else if !HasService(services.descriptors, t) {
          services.AddTransient(t, t);
        }
        assert behaviorTypes[..i + 1][..i] == behaviorTypes[..i];
        i := i + 1;
      }
      assert behaviorTypes[..i] == behaviorTypes;
    }

    /** `ConfigurePipeline(messageType, configure)`: the stored configuration
        is changed in place, so changes accumulate over calls; then its whole
        behaviour list is registered again. */
    method ConfigurePipeline(messageType: TypeTag, configure: ConfigureAction)
      requires Valid()
      modifies this, services, if messageType in configurations then {configurations[messageType]} else {}
      ensures Valid()
      ensures configurations.Keys == old(configurations).Keys + {messageType}
      ensures forall k :: k in old(configurations) ==> configurations[k] == old(configurations)[k]
      ensures var config := configurations[messageType];
              && (config.behaviorTypes, config.pipelineType) ==
                   (if messageType in old(configurations)
                    then configure.update(old(configurations[messageType].behaviorTypes),
                                          old(configurations[messageType].pipelineType))
                    else configure.update([], CommandPipeline))
              && services.descriptors == Registered(assignable, old(services.descriptors), config.behaviorTypes)
      ensures forall k :: k in old(configurations) && k != messageType ==>
                configurations[k].behaviorTypes == old(configurations[k].behaviorTypes)
                && configurations[k].pipelineType == old(configurations[k].pipelineType)
    {
      var config := GetConfiguration(messageType);
      var (behaviorTypes, pipelineType) := configure.update(config.behaviorTypes, config.pipelineType);
      config.behaviorTypes := behaviorTypes;
      config.pipelineType := pipelineType;
      RegisterBehaviorTypes(config.behaviorTypes);
    }

    /** `ConfigurePipeline<TMessage>` is `ConfigurePipeline(typeof(TMessage), ...)`. */
    method ConfigurePipelineOf(messageType: TypeTag, configure: ConfigureAction)
      requires Valid()
      modifies this, services, if messageType in configurations then {configurations[messageType]} else {}
      ensures Valid()
      ensures configurations.Keys == old(configurations).Keys + {messageType}
      ensures forall k :: k in old(configurations) ==> configurations[k] == old(configurations)[k]
      ensures var config := configurations[messageType];
              && (config.behaviorTypes, config.pipelineType) ==
                   (if messageType in old(configurations)
                    then configure.update(old(configurations[messageType].behaviorTypes),
                                          old(configurations[messageType].pipelineType))
                    else configure.update([], CommandPipeline))
              && services.descriptors == Registered(assignable, old(services.descriptors), config.behaviorTypes)
      ensures forall k :: k in old(configurations) && k != messageType ==>
                configurations[k].behaviorTypes == old(configurations[k].behaviorTypes)
                && configurations[k].pipelineType == old(configurations[k].pipelineType)
    {
      ConfigurePipeline(messageType, configure);
    }
  }
}
