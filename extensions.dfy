/**
 * The mapping combinators and `onEach`: mapping a fixed property computes once and
 * gives a fixed property; mapping a live one gives a derived property.
 */
module Extensions {
  import opened Props

  /** `map`: a live source gets a mapped property on the in-place worker. */
  function Map<V(==)>(p: Property<V>, transform: V -> V): (r: Property<V>)
    ensures MayChange(r) == MayChange(p)
    ensures !MayChange(p) ==> r == Fixed(transform(p.value))
    ensures MayChange(p) ==> r.Mapped? && r.source == p && r.worker == InPlaceWorker
  {
    if MayChange(p) then Mapped(p, transform, InPlaceWorker)
    else Fixed(transform(p.value))
  }

  /** `mapOn`: as `map`, with the transform computed on `worker` for a live source. */
  function MapOn<V(==)>(p: Property<V>, worker: Worker, transform: V -> V): (r: Property<V>)
    ensures MayChange(r) == MayChange(p)
    ensures !MayChange(p) ==> r == Fixed(transform(p.value))
    ensures MayChange(p) ==> r.Mapped? && r.source == p && r.worker == worker
  {
    if MayChange(p) then Mapped(p, transform, worker)
    else Fixed(transform(p.value))
  }

  /** Mapping, on any worker, yields the transformed value of the source. */
  lemma MapValue<V>(p: Property<V>, worker: Worker, transform: V -> V)
    ensures Value(Map(p, transform)) == transform(Value(p))
    ensures Value(MapOn(p, worker, transform)) == transform(Value(p))
    ensures !MayChange(p) ==> MapOn(p, worker, transform) == Map(p, transform)
  {
  }

  /**
   * `mapWith`: two live properties give a bi-mapped property; otherwise the value of
   * a fixed side is captured once and the other side is mapped. The last branch of
   * the source cannot be reached.
   */
  function MapWith<V(==)>(a: Property<V>, b: Property<V>, transform: (V, V) -> V): (r: Property<V>)
    ensures MayChange(r) <==> MayChange(a) || MayChange(b)
    ensures MayChange(a) && MayChange(b) ==> r.BiMapped? && r.left == a && r.right == b
    ensures !MayChange(a) && !MayChange(b) ==> r == Fixed(transform(a.value, b.value))
    ensures MayChange(a) != MayChange(b) ==> r.Mapped? && r.source == (if MayChange(a) then a else b)
  {
    if MayChange(a) && MayChange(b) then BiMapped(a, b, transform)
    else if !MayChange(a) then
      var thisValue := a.value;
      Map(b, x => transform(thisValue, x))
    else if !MayChange(b) then
      var thatValue := b.value;
      Map(a, x => transform(x, thatValue))
    else
      assert false; a
  }

  /** Whatever the sides, the combined value is `transform` of the two values. */
  lemma MapWithValue<V>(a: Property<V>, b: Property<V>, transform: (V, V) -> V)
    ensures Value(MapWith(a, b, transform)) == transform(Value(a), Value(b))
    ensures MayChange(MapWith(a, b, transform)) <==> MayChange(a) || MayChange(b)
  {
    if !MayChange(a) {
      MapValue(b, InPlaceWorker, x => transform(Value(a), x));
    } else if !MayChange(b) {
      MapValue(a, InPlaceWorker, x => transform(x, Value(b)));
    }
  }

  /** Two fixed properties combine into a fixed property. */
  lemma MapWithFixed<V>(x: V, y: V, transform: (V, V) -> V)
    ensures MapWith(Fixed(x), Fixed(y), transform) == Fixed(transform(x, y))
  {
  }

  /** With exactly one side fixed, the other side is mapped over the captured value. */
  lemma MapWithOneFixed<V>(a: Property<V>, b: Property<V>, transform: (V, V) -> V)
    requires MayChange(a) != MayChange(b)
    ensures var r := MapWith(a, b, transform);
            && r.Mapped? && r.worker == InPlaceWorker
            && (!MayChange(a) ==> r.source == b && forall x :: r.transform(x) == transform(a.value, x))
            && (!MayChange(b) ==> r.source == a && forall x :: r.transform(x) == transform(x, b.value))
  {
  }

  /**
   * `onEach` on a thread-confined cell, followed by `laterWrites` from other code. The
   * listener registered first forwards the new value of each notification to `func`;
   * then `func` runs on the current value. So `func` sees the initial value and then
   * every written value, in order, and each notification carries the value `func` saw
   * before it and the one it sees next.
   */
  method OnEach<V(==)>(cell: MutableProperty<V>, laterWrites: seq<V>) returns (calls: seq<V>)
    modifies cell
    ensures calls == [old(cell.value)] + laterWrites
    ensures cell.value == calls[|calls| - 1]
    ensures |cell.notified| == |old(cell.notified)| + |laterWrites|
    ensures cell.notified[..|old(cell.notified)|] == old(cell.notified)
    ensures forall k :: 0 <= k < |laterWrites| ==> cell.notified[|old(cell.notified)| + k] == (calls[k], calls[k + 1])
  {
    ghost var before := cell.notified;
    calls := [cell.value];
    for k := 0 to |laterWrites|
      invariant calls == [old(cell.value)] + laterWrites[..k]
      invariant cell.value == calls[k]
      invariant |cell.notified| == |before| + k && cell.notified[..|before|] == before
      invariant forall j :: 0 <= j < k ==> cell.notified[|before| + j] == (calls[j], calls[j + 1])
    {
      cell.Set(laterWrites[k]);
      var (_, delivered) := cell.notified[|cell.notified| - 1];
      calls := calls + [delivered];
    }
    assert laterWrites[..|laterWrites|] == laterWrites;
  }
}
