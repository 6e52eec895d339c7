/**
 * Observable properties with sequential semantics. A property is either fixed at
 * construction, a mutable cell, or derived from other properties by a combinator.
 * The derived classes (`MappedProperty`, `BiMappedProperty`, `DistinctPropertyWrapper`,
 * `DebouncedProperty`, `MultiMappedProperty`) are represented only by the value they
 * settle on and by whether they may change.
 */
module Props {

  /** A worker a mapped property computes its transform on; `InPlaceWorker` is the caller's thread. */
  datatype Worker = InPlaceWorker | WorkerOn(id: nat)

  /**
   * A mutable property with a compare-and-set. `notified` records the `(old, new)`
   * pairs of the notifications the cell has scheduled, in order.
   */
  class MutableProperty<V(==)> {
    const concurrent: bool
    var value: V
    var notified: seq<(V, V)>

    constructor (value: V, concurrent: bool)
      ensures this.value == value && this.concurrent == concurrent && notified == []
    {
      this.value := value;
      this.concurrent := concurrent;
      notified := [];
    }

    /** The value setter: the new value, and one notification `(old, new)`. */
    method Set(v: V)
      modifies this
      ensures value == v
      ensures notified == old(notified) + [(old(value), v)]
    {
      notified := notified + [(value, v)];
      value := v;
    }

    /**
     * `casValue`: succeeds exactly when the held value equals `expected`; on success
     * the value becomes `next` and `(expected, next)` is notified, on failure nothing
     * happens.
     */
    method CasValue(expected: V, next: V) returns (ok: bool)
      modifies this
      ensures ok <==> old(value) == expected
      ensures ok ==> value == next && notified == old(notified) + [(expected, next)]
      ensures !ok ==> unchanged(this)
    {
      if value == expected {
        Set(next);
        ok := true;
      } else {
        ok := false;
      }
    }
  }

  /** A property of values of type `V`. */
  datatype Property<!V(==)> =
    | Fixed(value: V)
    | Live(cell: MutableProperty<V>)
    | Mapped(source: Property<V>, transform: V -> V, worker: Worker)
    | BiMapped(left: Property<V>, right: Property<V>, combine: (V, V) -> V)
    | DistinctWrapper(wrapped: Property<V>, areEqual: (V, V) -> bool)
    | DebouncedWrapper(debounced: Property<V>, delay: int, unit: nat)

  /** `mayChange`: only a fixed property is known never to change. */
  predicate MayChange<V(==)>(p: Property<V>) {
    !p.Fixed?
  }

  /** The mutable cells a property's value depends on. */
  function Cells<V(==)>(p: Property<V>): set<MutableProperty<V>> {
    match p
    case Fixed(_) => {}
    case Live(c) => {c}
    case Mapped(s, _, _) => Cells(s)
    case BiMapped(a, b, _) => Cells(a) + Cells(b)
    case DistinctWrapper(s, _) => Cells(s)
    case DebouncedWrapper(s, _, _) => Cells(s)
  }

  /** `value`: the value a property settles on, computed from its sources' values. */
  function Value<V(==)>(p: Property<V>): V
    reads Cells(p)
  {
    match p
    case Fixed(v) => v
    case Live(c) => c.value
    case Mapped(s, f, _) => f(Value(s))
    case BiMapped(a, b, t) => t(Value(a), Value(b))
    case DistinctWrapper(s, _) => Value(s)
    case DebouncedWrapper(s, _, _) => Value(s)
  }

  /** A property over a list of sources, computed from the list of their values. */
  datatype MultiProperty<!T(==), R> = MultiMapped(sources: seq<Property<T>>, transform: seq<T> -> R)

  /** The cells any of the sources depends on. */
  function CellsOfAll<T(==)>(sources: seq<Property<T>>): set<MutableProperty<T>> {
    if |sources| == 0 then {} else Cells(sources[0]) + CellsOfAll(sources[1..])
  }

  /** The current values of the sources, in collection order. */
  function Values<T(==)>(sources: seq<Property<T>>): (vs: seq<T>)
    reads CellsOfAll(sources)
    ensures |vs| == |sources|
    ensures forall i :: 0 <= i < |sources| ==> vs[i] == Value(sources[i])
  {
    if |sources| == 0 then []
    else [Value(sources[0])] + Values(sources[1..])
  }

  function MultiValue<T(==), R>(p: MultiProperty<T, R>): R
    reads CellsOfAll(p.sources)
  {
    p.transform(Values(p.sources))
  }
}
