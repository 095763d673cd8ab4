/** The domain building blocks: entities compared by runtime type and
    identity value, aggregate roots that collect domain events, and the
    validation result an entity checks before it throws. An object reference
    is a number `ref`; an entity's `Id` is an identity record that may be
    null, written `None`, and its `Value` is a key of type `K`. */
module DomainModel {
  import opened Kernel

  /** An `Entity<TId, TKey>` as the equality members see it. */
  datatype Entity<K> = Entity(ref: nat, runtimeType: TypeTag, id: Option<K>)

  /** The argument of `Equals(object?)`: null, an entity of the same
      `Entity<TId, TKey>` closure, or any other object. */
  datatype Object<K> = NullRef | EntityObject(entity: Entity<K>) | OtherObject

  /** How evaluating a member ends: with a result, or with the
      `NullReferenceException` of reading `Id.Value` through a null `Id`. */
  datatype Completion<T> = Completed(result: T) | NullReference

  /** Two entity values that share a reference are the same object. */
  ghost predicate Coherent<K>(a: Entity<K>, b: Entity<K>)
  {
    a.ref == b.ref ==> a == b
  }

  /** The public constructor: a null id is refused. */
  function Create<K(==)>(ref: nat, runtimeType: TypeTag, id: Option<K>): (r: Result<Entity<K>>)
    ensures r.Failure? <==> id.None?
    ensures r.Failure? ==> r.error == ArgumentNull("id")
    ensures r.Success? ==> r.value.id == id && r.value.ref == ref && r.value.runtimeType == runtimeType
  {
    if id.None? then Failure(ArgumentNull("id")) else Success(Entity(ref, runtimeType, id))
  }

  datatype Result<T> = Success(value: T) | Failure(error: Exception)

  /** The parameterless constructor kept for object mappers leaves `Id` null. */
  function CreateForMapper<K(==)>(ref: nat, runtimeType: TypeTag): (e: Entity<K>)
    ensures e.id.None? && e.ref == ref && e.runtimeType == runtimeType
  {
    Entity(ref, runtimeType, None)
  }

  /** `Equals(object? obj)`. */
  function EntityEquals<K(==)>(self: Entity<K>, obj: Object<K>): (r: Completion<bool>)
    ensures r == Completed(true) <==>
              obj.EntityObject? && (self.ref == obj.entity.ref
                || (self.runtimeType == obj.entity.runtimeType && self.id.Some? && obj.entity.id.Some?
                    && self.id.value == obj.entity.id.value))
    ensures r.NullReference? <==>
              obj.EntityObject? && self.ref != obj.entity.ref && self.runtimeType == obj.entity.runtimeType
              && (self.id.None? || obj.entity.id.None?)
  {
    match obj
    case NullRef => Completed(false)
    case OtherObject => Completed(false)
    case EntityObject(other) =>
      if self.ref == other.ref then Completed(true)
      else if self.runtimeType != other.runtimeType then Completed(false)
      else if self.id.None? || other.id.None? then NullReference
      else Completed(self.id.value == other.id.value)
  }

  /** `GetHashCode()`: `HashCode.Combine` is seeded per process, so it is a
      parameter here. */
  function EntityHash<K(==)>(self: Entity<K>, combine: (TypeTag, K) -> int): (r: Completion<int>)
    ensures r.NullReference? <==> self.id.None?
  {
    if self.id.None? then NullReference else Completed(combine(self.runtimeType, self.id.value))
  }

  /** The static `object.Equals(left, right)` behind `==`. */
  function OperatorEquals<K(==)>(left: Option<Entity<K>>, right: Option<Entity<K>>): (r: Completion<bool>)
    ensures left.None? || right.None? ==> r == Completed(left.None? && right.None?)
    ensures left.Some? && right.Some? ==> r == EntityEquals(left.value, EntityObject(right.value))
  {
    if left.None? && right.None? then Completed(true)
    else if left.None? || right.None? then Completed(false)
    else if left.value.ref == right.value.ref then Completed(true)
    else EntityEquals(left.value, EntityObject(right.value))
  }

  /** `!=` */
  function OperatorNotEquals<K(==)>(left: Option<Entity<K>>, right: Option<Entity<K>>): (r: Completion<bool>)
    ensures r.NullReference? <==> OperatorEquals(left, right).NullReference?
    ensures r.Completed? ==> r.result == !OperatorEquals(left, right).result
  {
    match OperatorEquals(left, right)
    case Completed(b) => Completed(!b)
    case NullReference => NullReference
  }

  /** Null and objects that are not entities of the same closure are never
      equal to an entity; neither is an entity of another runtime type. */
  lemma NotEqualToOtherObjects<K>(self: Entity<K>, obj: Object<K>)
    requires obj.NullRef? || obj.OtherObject?
             || (obj.EntityObject? && obj.entity.runtimeType != self.runtimeType && Coherent(self, obj.entity))
    ensures EntityEquals(self, obj) == Completed(false)
  {
  }

  /** Entities built by the public constructor compare without throwing:
      equal exactly when they have the same runtime type and equal `Id.Value`. */
  lemma EqualityByTypeAndKey<K>(a: Entity<K>, b: Entity<K>)
    requires a.id.Some? && b.id.Some? && Coherent(a, b)
    ensures EntityEquals(a, EntityObject(b)) ==
              Completed(a.runtimeType == b.runtimeType && a.id.value == b.id.value)
  {
  }

  /** An entity equals itself through the reference check, even one whose
      `Id` was left null by the mapper constructor. */
  lemma EqualsReflexive<K>(a: Entity<K>)
    ensures EntityEquals(a, EntityObject(a)) == Completed(true)
  {
  }

  /** `Equals` is symmetric, down to which pairs throw. */
  lemma EqualsSymmetric<K>(a: Entity<K>, b: Entity<K>)
    requires Coherent(a, b)
    ensures EntityEquals(a, EntityObject(b)) == EntityEquals(b, EntityObject(a))
  {
  }

  lemma EqualsTransitive<K>(a: Entity<K>, b: Entity<K>, c: Entity<K>)
    requires Coherent(a, b) && Coherent(b, c) && Coherent(a, c)
    requires EntityEquals(a, EntityObject(b)) == Completed(true)
    requires EntityEquals(b, EntityObject(c)) == Completed(true)
    ensures EntityEquals(a, EntityObject(c)) == Completed(true)
  {
  }

  /** Equal entities have equal hash codes, whatever the combining function. */
  lemma EqualEntitiesHashAlike<K>(a: Entity<K>, b: Entity<K>, combine: (TypeTag, K) -> int)
    requires Coherent(a, b)
    requires EntityEquals(a, EntityObject(b)) == Completed(true)
    ensures EntityHash(a, combine) == EntityHash(b, combine)
  {
  }

  /** A mapper-built entity throws when compared with a distinct entity of
      its own runtime type, and when hashed. */
  lemma MapperEntityThrows<K>(a: Entity<K>, b: Entity<K>, combine: (TypeTag, K) -> int)
    requires a.id.None? && a.ref != b.ref && a.runtimeType == b.runtimeType
    ensures EntityEquals(a, EntityObject(b)) == NullReference
    ensures EntityEquals(b, EntityObject(a)) == NullReference
    ensures EntityHash(a, combine) == NullReference
  {
  }

  /** `==` agrees with `Equals` on a non-null left operand, is true for two
      nulls and false for exactly one null; `!=` is its negation. */
  lemma OperatorsAgreeWithEquals<K>(left: Option<Entity<K>>, right: Option<Entity<K>>)
    requires left.Some? && right.Some? ==> Coherent(left.value, right.value)
    ensures left.Some? && right.Some? ==>
              OperatorEquals(left, right) == EntityEquals(left.value, EntityObject(right.value))
    ensures left.Some? && right.None? ==>
              OperatorEquals(left, right) == EntityEquals(left.value, NullRef) == Completed(false)
    ensures left.None? ==> OperatorEquals(left, right) == Completed(right.None?)
    ensures OperatorNotEquals(left, right) ==
              match OperatorEquals(left, right)
              case Completed(b) => Completed(!b)
              case NullReference => NullReference
  {
  }

  // ---------------------------------------------------------------------
  // Aggregate roots

  /** An `IDomainEvent`; `OccurredOn` is a clock reading and is not modelled. */
  datatype DomainEvent = DomainEvent(eventType: TypeTag, payload: int)

  /** A change to an aggregate's event list. */
  datatype EventChange = Add(item: DomainEvent) | Clear

  /** The list after one change. */
  function Step(events: seq<DomainEvent>, change: EventChange): seq<DomainEvent>
  {
    match change
    case Add(e) => events + [e]
    case Clear => []
  }

  /** The list after a run of changes. */
  function AfterChanges(events: seq<DomainEvent>, changes: seq<EventChange>): seq<DomainEvent>
  {
    if changes == [] then events else Step(AfterChanges(events, changes[..|changes| - 1]), changes[|changes| - 1])
  }

  /** The events a run of changes adds, in order. */
  function Added(changes: seq<EventChange>): seq<DomainEvent>
  {
    if changes == [] then []
    else Added(changes[..|changes| - 1]) + (if changes[|changes| - 1].Add? then [changes[|changes| - 1].item] else [])
  }

  /** Changes applied in two runs are the changes applied in one. */
  lemma {:induction false} AfterChangesAppend(events: seq<DomainEvent>, xs: seq<EventChange>, ys: seq<EventChange>)
    ensures AfterChanges(events, xs + ys) == AfterChanges(AfterChanges(events, xs), ys)
    decreases |ys|
  {
    if ys == [] {
      assert xs + ys == xs;
    } else {
      assert (xs + ys)[..|xs + ys| - 1] == xs + ys[..|ys| - 1];
      AfterChangesAppend(events, xs, ys[..|ys| - 1]);
    }
  }

  /** With no clear, the added events follow the events held before, in the
      order they were added. */
  lemma {:induction false} EventsWithoutClear(events: seq<DomainEvent>, changes: seq<EventChange>)
    requires Clear !in changes
    ensures AfterChanges(events, changes) == events + Added(changes)
    decreases |changes|
  {
    if changes != [] {
      var init := changes[..|changes| - 1];
      assert Clear !in init by {
        forall x | x in init ensures x in changes {
          var j :| 0 <= j < |init| && init[j] == x;
          assert changes[j] == x;
        }
      }
      EventsWithoutClear(events, init);
    }
  }

  /** After the last clear, the list holds exactly the events added since,
      whatever it held before. */
  lemma EventsSinceLastClear(events: seq<DomainEvent>, before: seq<EventChange>, after: seq<EventChange>)
    requires Clear !in after
    ensures AfterChanges(events, before + [Clear] + after) == Added(after)
  {
    AfterChangesAppend(events, before + [Clear], after);
    assert (before + [Clear])[..|before + [Clear]| - 1] == before;
    EventsWithoutClear([], after);
  }

  /** `AggregateRoot<TId, TKey>`: an entity with an in-place list of
      domain events. */
  class AggregateRoot<K> {
    const entity: Entity<K>
    var domainEvents: seq<DomainEvent>

    /** The base constructor has already accepted `id`. */
    constructor(ref: nat, runtimeType: TypeTag, id: K)
      ensures entity == Entity(ref, runtimeType, Some(id))
      ensures domainEvents == []
    {
      entity := Entity(ref, runtimeType, Some(id));
      domainEvents := [];
    }

    /** `DomainEvents`: a read-only view of the live list, so it always
        shows the current events. */
    function DomainEvents(): (view: seq<DomainEvent>)
      reads this
      ensures |view| == |domainEvents| && forall i :: 0 <= i < |view| ==> view[i] == domainEvents[i]
    {
      domainEvents
    }

    /** `AddDomainEvent`: appends at the end. */
    method AddDomainEvent(eventItem: DomainEvent)
      modifies this
      ensures domainEvents == Step(old(domainEvents), Add(eventItem))
      ensures |domainEvents| == |old(domainEvents)| + 1
      ensures domainEvents[..|old(domainEvents)|] == old(domainEvents) && domainEvents[|old(domainEvents)|] == eventItem
    {
      domainEvents := domainEvents + [eventItem];
    }

    /** `ClearDomainEvents` */
    method ClearDomainEvents()
      modifies this
      ensures domainEvents == Step(old(domainEvents), Clear) == []
    {
      domainEvents := [];
    }
  }

  /** Creating an aggregate root: the base constructor refuses a null id. */
  method NewAggregateRoot<K(==)>(ref: nat, runtimeType: TypeTag, id: Option<K>)
    returns (root: AggregateRoot?<K>, error: Option<Exception>)
    ensures id.None? ==> root == null && error == Some(ArgumentNull("id"))
    ensures id.Some? ==> root != null && fresh(root) && error == None
                         && root.entity == Entity(ref, runtimeType, id) && root.domainEvents == []
  {
    if id.None? {
      return null, Some(ArgumentNull("id"));
    }
    root := new AggregateRoot(ref, runtimeType, id.value);
    error := None;
  }

  // ---------------------------------------------------------------------
  // Validation

  datatype ValidationError = ValidationError(propertyName: string, errorMessage: string)

  /** `ValidationResult`: an in-place list of errors. */
  class ValidationResult {
    var errors: seq<ValidationError>

    constructor()
      ensures errors == []
    {
      errors := [];
    }

    /** `IsValid`: no errors recorded. */
    predicate IsValid()
      reads this
      ensures IsValid() <==> |Errors()| == 0
    {
      errors == []
    }

    /** `Errors`: a read-only view of the live list. */
    function Errors(): (view: seq<ValidationError>)
      reads this
      ensures |view| == |errors| && forall i :: 0 <= i < |view| ==> view[i] == errors[i]
    {
      errors
    }

    /** `AddError`: appends one error; the result is then invalid. */
    method AddError(propertyName: string, errorMessage: string)
      modifies this
      ensures errors == old(errors) + [ValidationError(propertyName, errorMessage)]
      ensures !IsValid()
    {
      errors := errors + [ValidationError(propertyName, errorMessage)];
    }

    /** `AddErrors`: appends all given errors, in order. */
    method AddErrors(newErrors: seq<ValidationError>)
      modifies this
      ensures errors == old(errors) + newErrors
      ensures IsValid() <==> old(IsValid()) && newErrors == []
    {
      errors := errors + newErrors;
    }
  }

  /** A call to `AddError` or `AddErrors`. */
  datatype ErrorChange = AddOne(propertyName: string, errorMessage: string) | AddMany(items: seq<ValidationError>)

  function AddedErrors(c: ErrorChange): seq<ValidationError>
  {
    match c
    case AddOne(p, m) => [ValidationError(p, m)]
    case AddMany(items) => items
  }

  /** The error list after a run of calls. */
  function ErrorsAfter(errors: seq<ValidationError>, changes: seq<ErrorChange>): seq<ValidationError>
  {
    if changes == [] then errors else ErrorsAfter(errors, changes[..|changes| - 1]) + AddedErrors(changes[|changes| - 1])
  }

  /** Errors are never removed: the list only grows, earlier errors keep
      their place, and once an `AddError` call is made the result stays invalid. */
  lemma {:induction false} ErrorsOnlyGrow(errors: seq<ValidationError>, changes: seq<ErrorChange>)
    ensures |errors| <= |ErrorsAfter(errors, changes)| && ErrorsAfter(errors, changes)[..|errors|] == errors
    ensures (exists i :: 0 <= i < |changes| && changes[i].AddOne?) ==> ErrorsAfter(errors, changes) != []
  {
    if changes != [] {
      var init := changes[..|changes| - 1];
      ErrorsOnlyGrow(errors, init);
      var before := ErrorsAfter(errors, init);
      assert (before + AddedErrors(changes[|changes| - 1]))[..|errors|] == before[..|errors|];
      if exists i :: 0 <= i < |changes| && changes[i].AddOne? {
        var i :| 0 <= i < |changes| && changes[i].AddOne?;
        if i < |changes| - 1 {
          assert init[i].AddOne?;
        }
      }
    }
  }

  /** `DomainValidationException`: the message and a copy of the errors. */
  datatype DomainValidationException = DomainValidationException(message: string, errors: seq<ValidationError>)

  /** `ValidatableEntity.Validate`: throws when the result holds errors,
      carrying a copy of them; otherwise returns with no effect. */
  function Validate(validationResult: ValidationResult): (thrown: Option<DomainValidationException>)
    reads validationResult
    ensures thrown.None? <==> validationResult.errors == []
    ensures thrown.Some? ==> thrown.value.message == "Domain validation failed"
                             && thrown.value.errors == validationResult.Errors()
  {
    if !validationResult.IsValid() then
      Some(DomainValidationException("Domain validation failed", validationResult.Errors()))
    else None
  }

  /** The exception keeps the errors of the moment it was thrown: an
      `AddError` afterwards shows in the live `Errors` view, not in it. */
  twostate lemma ExceptionKeepsSnapshot(validationResult: ValidationResult, error: ValidationError)
    requires old(Validate(validationResult)).Some?
    requires validationResult.errors == old(validationResult.errors) + [error]
    ensures old(Validate(validationResult)).value.errors == old(validationResult.Errors())
    ensures old(Validate(validationResult)).value.errors != validationResult.Errors()
  {
  }
}
