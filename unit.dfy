/** `Unit`: the zero-information response type of commands that return
    nothing. Every instance is equal to every other. */
module UnitStruct {
  import opened Kernel

  datatype Unit = Unit

  /** `Unit.Value`, boxed as the dispatch loop hands it back. */
  const BoxedUnit: Value := Boxed(UnitTag, 0)

  /** `Equals(Unit other)` */
  function Equals(self: Unit, other: Unit): (r: bool)
    ensures r
  {
    true
  }

  /** `Equals(object? obj)`: holds exactly when `obj` is a boxed `Unit`. */
  function EqualsObject(self: Unit, obj: Value): (r: bool)
    ensures r <==> (obj.Boxed? && obj.runtimeType == UnitTag)
    ensures obj == Null ==> !r
  {
    Is(obj)
  }

  /** The source's `is Unit` test on an object reference. */
  predicate Is(obj: Value)
  {
    obj.Boxed? && obj.runtimeType == UnitTag
  }

  function GetHashCode(self: Unit): (h: int)
    ensures h == 0
  {
    0
  }

  function ToString(self: Unit): (s: string)
    ensures s == "()"
  {
    "()"
  }

  function OpEquals(left: Unit, right: Unit): (r: bool)
    ensures r
  {
    true
  }

  function OpNotEquals(left: Unit, right: Unit): (r: bool)
    ensures !r
    ensures r == !OpEquals(left, right)
  {
    false
  }

  /** Equal units hash alike, and `==` agrees with `Equals`. */
  lemma EqualityContract(a: Unit, b: Unit)
    ensures Equals(a, b) && OpEquals(a, b) == Equals(a, b)
    ensures GetHashCode(a) == GetHashCode(b)
    ensures EqualsObject(a, BoxedUnit)
  {
  }
}
