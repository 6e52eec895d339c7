/**
 * The shared function objects and the wrappers that only exist for properties that
 * may change: a fixed property is returned as it is.
 */
module CommonExtensions {
  import opened Props
  import opened Extensions

  /** `Just`: the identity function object. */
  function Just<V>(x: V): (r: V)
    ensures r == x
  {
    x
  }

  /** A reference type whose `==` may differ from identity: `equals` is a parameter. */
  class Ref {
    constructor () {}
  }

  /** `Identity`: reference equality. */
  predicate Identity(x: Ref?, y: Ref?): (same: bool)
    ensures same <==> x == y
    ensures same ==> Identity(y, x)
  {
    x == y
  }

  /** `Equals`: structural equality, through the values' `equals`. */
  predicate Equals<V>(x: V, y: V, equals: (V, V) -> bool): (equal: bool)
    ensures equal <==> equals(x, y)
  {
    equals(x, y)
  }

  /** Both equalities are reflexive, given a reflexive `equals`; identity implies equality. */
  lemma EqualitiesReflexive<V>(x: Ref?, y: V, equals: (V, V) -> bool, eqRefs: (Ref?, Ref?) -> bool)
    requires forall v :: equals(v, v)
    requires forall r :: eqRefs(r, r)
    ensures Identity(x, x)
    ensures Equals(y, y, equals)
    ensures forall a, b :: Identity(a, b) ==> Equals(a, b, eqRefs)
  {
  }

  /** `readOnlyView`: `map(Just)`. */
  function ReadOnlyView<V(==)>(p: Property<V>): (r: Property<V>)
    ensures MayChange(r) == MayChange(p)
    ensures !MayChange(p) ==> r == p
  {
    Map(p, x => Just(x))
  }

  /** A read-only view holds the same value as the property it views. */
  lemma ReadOnlyViewValue<V>(p: Property<V>)
    ensures Value(ReadOnlyView(p)) == Value(p)
  {
    MapValue(p, InPlaceWorker, x => Just(x));
  }

  /** `distinct`: a wrapper for a live property, the receiver itself for a fixed one. */
  function Distinct<V(==)>(p: Property<V>, areEqual: (V, V) -> bool): (r: Property<V>)
    ensures !MayChange(p) ==> r == p
    ensures MayChange(p) ==> r == DistinctWrapper(p, areEqual)
  {
    if MayChange(p) then DistinctWrapper(p, areEqual) else p
  }

  /** `debounced`: a wrapper for a live property, the receiver itself for a fixed one. */
  function Debounced<V(==)>(p: Property<V>, delay: int, unit: nat): (r: Property<V>)
    ensures !MayChange(p) ==> r == p
    ensures MayChange(p) ==> r == DebouncedWrapper(p, delay, unit)
  {
    if MayChange(p) then DebouncedWrapper(p, delay, unit) else p
  }

  /** Neither wrapper changes the value or whether the property may change. */
  lemma WrappersKeepValue<V>(p: Property<V>, areEqual: (V, V) -> bool, delay: int, unit: nat)
    ensures Value(Distinct(p, areEqual)) == Value(p)
    ensures Value(Debounced(p, delay, unit)) == Value(p)
    ensures MayChange(Distinct(p, areEqual)) == MayChange(p)
    ensures MayChange(Debounced(p, delay, unit)) == MayChange(p)
  {
  }
}
