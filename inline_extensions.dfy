/**
 * The inline helpers: Boolean views, setting and clearing a Boolean property, the
 * read–compute–compare-and-set retry loops, the factories, and the bulk combinators
 * over a list of properties.
 */
module InlineExtensions {
  import opened Wrappers
  import opened Props
  import opened Extensions

  // ---------------------------------------------------------------------------
  // Boolean views

  /** `!p`. */
  function Not(p: Property<bool>): (r: Property<bool>)
    ensures MayChange(r) == MayChange(p)
  {
    Map(p, x => !x)
  }

  /** `p and q`. */
  function And(p: Property<bool>, q: Property<bool>): (r: Property<bool>)
    ensures MayChange(r) <==> MayChange(p) || MayChange(q)
  {
    MapWith(p, q, (x, y) => x && y)
  }

  /** `p or q`. */
  function Or(p: Property<bool>, q: Property<bool>): (r: Property<bool>)
    ensures MayChange(r) <==> MayChange(p) || MayChange(q)
  {
    MapWith(p, q, (x, y) => x || y)
  }

  /** `p xor q`. */
  function Xor(p: Property<bool>, q: Property<bool>): (r: Property<bool>)
    ensures MayChange(r) <==> MayChange(p) || MayChange(q)
  {
    MapWith(p, q, (x, y) => x != y)
  }

  /** Each view holds the Boolean operation applied to the current values. */
  lemma BooleanViews(p: Property<bool>, q: Property<bool>)
    ensures Value(Not(p)) == !Value(p)
    ensures Value(And(p, q)) == (Value(p) && Value(q))
    ensures Value(Or(p, q)) == (Value(p) || Value(q))
    ensures Value(Xor(p, q)) == (Value(p) != Value(q))
  {
    MapValue(p, InPlaceWorker, x => !x);
    MapWithValue(p, q, (x, y) => x && y);
    MapWithValue(p, q, (x, y) => x || y);
    MapWithValue(p, q, (x, y) => x != y);
  }

  // ---------------------------------------------------------------------------
  // set / clear / clearEachAnd

  /** `set()`: writes `true`. */
  method SetTrue(cell: MutableProperty<bool>)
    modifies cell
    ensures cell.value
    ensures cell.notified == old(cell.notified) + [(old(cell.value), true)]
  {
    cell.Set(true);
  }

  /** `clear()`: writes `false`. */
  method Clear(cell: MutableProperty<bool>)
    modifies cell
    ensures !cell.value
    ensures cell.notified == old(cell.notified) + [(old(cell.value), false)]
  {
    cell.Set(false);
  }

  /** The function `clearEachAnd` runs for each observed value: a `true` is cleared and the action runs. */
  method ClearOnTrue(cell: MutableProperty<bool>, observed: bool) returns (ranAction: bool)
    modifies cell
    ensures ranAction == observed
    ensures observed ==> !cell.value && cell.notified == old(cell.notified) + [(old(cell.value), false)]
    ensures !observed ==> unchanged(cell)
  {
    ranAction := false;
    if observed {
      cell.Set(false);
      ranAction := true;
    }
  }

  /** How many of the observed values are `true`. */
  function CountTrue(observed: seq<bool>): nat {
    if |observed| == 0 then 0
    else CountTrue(observed[..|observed| - 1]) + (if observed[|observed| - 1] then 1 else 0)
  }

  /**
   * `clearEachAnd` on a thread-confined property, followed by `laterWrites` from other
   * code, each delivered to the listener before the next. The action runs once per
   * observed `true` (the initial value included), and the property always ends `false`.
   * The listener's own `false` write notifies it again with `false`, which does
   * nothing, so that nested round is not shown.
   */
  method ClearEachAnd(cell: MutableProperty<bool>, laterWrites: seq<bool>) returns (actions: nat)
    modifies cell
    ensures actions == CountTrue([old(cell.value)] + laterWrites)
    ensures !cell.value
  {
    ghost var observed := [cell.value] + laterWrites;
    var ran := ClearOnTrue(cell, cell.value);
    actions := if ran then 1 else 0;
    assert observed[..1] == [observed[0]];
    assert CountTrue(observed[..1]) == actions by { assert observed[..1][..0] == []; }
    for k := 0 to |laterWrites|
      invariant !cell.value
      invariant actions == CountTrue(observed[..k + 1])
    {
      cell.Set(laterWrites[k]);
      ran := ClearOnTrue(cell, laterWrites[k]);
      if ran {
        actions := actions + 1;
      }
      assert observed[..k + 2][..k + 1] == observed[..k + 1];
    }
    assert observed[..|laterWrites| + 1] == observed;
  }

  // ---------------------------------------------------------------------------
  // The compare-and-set retry loops

  /**
   * What other writers do during one round of a retry loop: possibly one write between
   * the round's read and its compare-and-set, and possibly one more after a failed
   * compare-and-set, before the next round reads.
   */
  datatype Race<V> = Race(beforeCas: Option<V>, afterFailure: Option<V>)

  /** The value the cell holds at a round's compare-and-set, when the round read `read`. */
  function AtCas<V>(read: V, race: Race<V>): V {
    if race.beforeCas.Some? then race.beforeCas.value else read
  }

  /** The value the next round reads, after a failed compare-and-set that found `atCas`. */
  function Reread<V>(atCas: V, race: Race<V>): V {
    if race.afterFailure.Some? then race.afterFailure.value else atCas
  }

  /**
   * The value each round of a retry loop reads, with `interference[k]` racing round `k`;
   * a round succeeds exactly when the cell still holds the value it read.
   */
  function Rounds<V(==)>(start: V, interference: seq<Race<V>>): (r: seq<V>)
    ensures 1 <= |r| <= |interference| + 1 && r[0] == start
  {
    if |interference| == 0 then [start]
    else
      var atCas := AtCas(start, interference[0]);
      if atCas == start then [start] else [start] + Rounds(Reread(atCas, interference[0]), interference[1..])
  }

  /**
   * The loop shared by `getAndUpdate`, `updateAndGet` and `update`: read the value,
   * compute `updater(prev)`, compare-and-set, and start over on failure.
   */
  method UpdateLoop<V(==)>(cell: MutableProperty<V>, updater: V -> V, interference: seq<Race<V>>)
    returns (prev: V, next: V, attempts: seq<V>)
    modifies cell
    ensures attempts == Rounds(old(cell.value), interference)
    ensures prev == attempts[|attempts| - 1] && next == updater(prev) && cell.value == next
  {
    var k := 0;
    attempts := [];
    ghost var all := Rounds(cell.value, interference);
    while true
      invariant k <= |interference|
      invariant attempts + Rounds(cell.value, interference[k..]) == all
      decreases |interference| - k
    {
      var race := if k < |interference| then interference[k] else Race(None, None);
      var ok;
      prev, next, ok := UpdateRound(cell, updater, race);
      attempts := attempts + [prev];
      if ok {
        return;
      }
      assert interference[k..][1..] == interference[k + 1..];
      k := k + 1;
    }
  }

  /**
   * One round of the retry loop, with `race` what other writers do meanwhile: the round
   * read `prev`, and its compare-and-set succeeds exactly when the cell still holds it.
   */
  method UpdateRound<V(==)>(cell: MutableProperty<V>, updater: V -> V, race: Race<V>)
    returns (prev: V, next: V, ok: bool)
    modifies cell
    ensures prev == old(cell.value) && next == updater(prev)
    ensures ok <==> AtCas(prev, race) == prev
    ensures ok ==> cell.value == next
    ensures !ok ==> cell.value == Reread(AtCas(prev, race), race)
  {
    prev := cell.value;
    next := updater(prev);
    if race.beforeCas.Some? {
      cell.Set(race.beforeCas.value);
    }
    ok := cell.CasValue(prev, next);
    if !ok && race.afterFailure.Some? {
      cell.Set(race.afterFailure.value);
    }
  }

  /** `getAndUpdate`: the value the successful compare-and-set replaced. */
  method GetAndUpdate<V(==)>(cell: MutableProperty<V>, updater: V -> V, interference: seq<Race<V>>)
    returns (result: V)
    modifies cell
    ensures var rounds := Rounds(old(cell.value), interference);
            result == rounds[|rounds| - 1] && cell.value == updater(result)
  {
    var prev, next, attempts := UpdateLoop(cell, updater, interference);
    result := prev;
  }

  /** `updateAndGet`: the value the successful compare-and-set stored. */
  method UpdateAndGet<V(==)>(cell: MutableProperty<V>, updater: V -> V, interference: seq<Race<V>>)
    returns (result: V)
    modifies cell
    ensures var rounds := Rounds(old(cell.value), interference);
            result == updater(rounds[|rounds| - 1]) && cell.value == result
  {
    var prev, next, attempts := UpdateLoop(cell, updater, interference);
    result := next;
  }

  /** `update`: the same final value as `updateAndGet`, and no result. */
  method Update<V(==)>(cell: MutableProperty<V>, updater: V -> V, interference: seq<Race<V>>)
    modifies cell
    ensures var rounds := Rounds(old(cell.value), interference);
            cell.value == updater(rounds[|rounds| - 1])
  {
    var prev, next, attempts := UpdateLoop(cell, updater, interference);
  }

  /** Without another writer the first round succeeds, on the value the loop started from. */
  lemma {:induction false} RoundsAlone<V>(start: V, interference: seq<Race<V>>)
    requires forall k :: 0 <= k < |interference| ==> interference[k].beforeCas.None?
    ensures Rounds(start, interference) == [start]
  {
  }

  /**
   * A round fails only because another writer stored a different value before its
   * compare-and-set, and the next round reads the cell afresh: the late write if there
   * was one, otherwise the value that made the round fail.
   */
  lemma {:induction false} RoundsRetry<V>(start: V, interference: seq<Race<V>>, k: nat)
    requires k + 1 < |Rounds(start, interference)|
    ensures interference[k].beforeCas.Some?
    ensures interference[k].beforeCas.value != Rounds(start, interference)[k]
    ensures Rounds(start, interference)[k + 1] == Reread(interference[k].beforeCas.value, interference[k])
  {
    var next := Reread(AtCas(start, interference[0]), interference[0]);
    if k > 0 {
      RoundsRetry(next, interference[1..], k - 1);
    }
  }

  /**
   * A write-back after a failed compare-and-set makes the retry read the very value
   * the failed round read: a retry does not always see a new value.
   */
  lemma WriteBackRereadsSameValue<V>(a: V, b: V)
    requires a != b
    ensures Rounds(a, [Race(Some(b), Some(a)), Race(None, None)]) == [a, a]
  {
  }

  /** A write of the very value a round read does not make that round fail. */
  lemma SameValueWriteStillSucceeds<V>(start: V, late: Option<V>, rest: seq<Race<V>>)
    ensures Rounds(start, [Race(Some(start), late)] + rest) == [start]
  {
  }

  // ---------------------------------------------------------------------------
  // Factories

  /** `mutablePropertyOf`: a fresh cell, concurrent or not as asked. */
  method MutablePropertyOf<V(==)>(value: V, concurrent: bool) returns (p: MutableProperty<V>)
    ensures fresh(p) && p.value == value && p.concurrent == concurrent && p.notified == []
  {
    p := new MutableProperty(value, concurrent);
  }

  /** `concurrentMutablePropertyOf`. */
  method ConcurrentMutablePropertyOf<V(==)>(value: V) returns (p: MutableProperty<V>)
    ensures fresh(p) && p.value == value && p.concurrent && p.notified == []
  {
    p := new MutableProperty(value, true);
  }

  /** `unsynchronizedMutablePropertyOf`. */
  method UnsynchronizedMutablePropertyOf<V(==)>(value: V) returns (p: MutableProperty<V>)
    ensures fresh(p) && p.value == value && !p.concurrent && p.notified == []
  {
    p := new MutableProperty(value, false);
  }

  /** The two shared immutable Boolean properties. */
  const TrueProperty: Property<bool> := Fixed(true)
  const FalseProperty: Property<bool> := Fixed(false)

  /** `immutablePropertyOf(Boolean)`: one of the two shared instances. */
  function ImmutableBool(value: bool): (r: Property<bool>)
    ensures r == TrueProperty || r == FalseProperty
    ensures Value(r) == value && !MayChange(r)
  {
    if value then TrueProperty else FalseProperty
  }

  /** `immutablePropertyOf(value)`. */
  function ImmutablePropertyOf<V(==)>(value: V): (r: Property<V>)
    ensures Value(r) == value && !MayChange(r)
  {
    Fixed(value)
  }

  // ---------------------------------------------------------------------------
  // List functions used by the bulk combinators

  /** The left fold of `operation` from `initial`. */
  function FoldLeft<T, R>(initial: R, operation: (R, T) -> R, xs: seq<T>): R {
    if |xs| == 0 then initial else FoldLeft(operation(initial, xs[0]), operation, xs[1..])
  }

  /** Folding one more element applies `operation` once more, at the end. */
  lemma {:induction false} FoldLeftSnoc<T, R>(initial: R, operation: (R, T) -> R, xs: seq<T>, x: T)
    ensures FoldLeft(initial, operation, xs + [x]) == operation(FoldLeft(initial, operation, xs), x)
  {
    if |xs| > 0 {
      assert (xs + [x])[1..] == xs[1..] + [x];
      FoldLeftSnoc(operation(initial, xs[0]), operation, xs[1..], x);
    }
  }

  /** The accumulator loop inside `foldValues`. */
  method FoldList<T, R>(initial: R, operation: (R, T) -> R, xs: seq<T>) returns (accumulator: R)
    ensures accumulator == FoldLeft(initial, operation, xs)
  {
    accumulator := initial;
    for i := 0 to |xs|
      invariant accumulator == FoldLeft(initial, operation, xs[..i])
    {
      FoldLeftSnoc(initial, operation, xs[..i], xs[i]);
      assert xs[..i + 1] == xs[..i] + [xs[i]];
      accumulator := operation(accumulator, xs[i]);
    }
    assert xs[..|xs|] == xs;
  }

  /** `firstOrNull(predicate)`. */
  function FirstOrNull<T>(xs: seq<T>, accepts: T -> bool): (r: Option<T>)
    ensures r.None? <==> forall i :: 0 <= i < |xs| ==> !accepts(xs[i])
    ensures r.Some? ==> exists i :: 0 <= i < |xs| && xs[i] == r.value && accepts(xs[i]) &&
                                    forall j :: 0 <= j < i ==> !accepts(xs[j])
  {
    if |xs| == 0 then None
    else if accepts(xs[0]) then Some(xs[0])
    else
      var rest := FirstOrNull(xs[1..], accepts);
      assert forall i :: 1 <= i < |xs| ==> xs[i] == xs[1..][i - 1];
      assert rest.Some? ==> exists i :: 1 <= i < |xs| && xs[i] == rest.value && accepts(xs[i]) &&
                                        forall j :: 0 <= j < i ==> !accepts(xs[j]) by {
        if rest.Some? {
          var i :| 0 <= i < |xs[1..]| && xs[1..][i] == rest.value && accepts(xs[1..][i]) &&
                   forall j :: 0 <= j < i ==> !accepts(xs[1..][j]);
          assert xs[i + 1] == rest.value;
        }
      }
      rest
  }

  /** `filter(predicate)`: the accepted elements, in order, each as often as in the list. */
  function Filter<T>(xs: seq<T>, accepts: T -> bool): (r: seq<T>)
    ensures |r| <= |xs|
    ensures multiset(r) <= multiset(xs)
    ensures forall i :: 0 <= i < |xs| ==> multiset(r)[xs[i]] == if accepts(xs[i]) then multiset(xs)[xs[i]] else 0
  {
    if |xs| == 0 then []
    else
      var rest := Filter(xs[1..], accepts);
      assert xs == [xs[0]] + xs[1..];
      FilterCountStep(xs[0], xs[1..], rest, accepts);
      (if accepts(xs[0]) then [xs[0]] else []) + rest
  }

  /** The counting step of `Filter`: keeping or dropping the head keeps each element's count right. */
  lemma FilterCountStep<T>(x: T, tail: seq<T>, rest: seq<T>, accepts: T -> bool)
    requires multiset(rest) <= multiset(tail)
    requires forall i :: 0 <= i < |tail| ==> multiset(rest)[tail[i]] == if accepts(tail[i]) then multiset(tail)[tail[i]] else 0
    ensures var xs := [x] + tail;
            var r := (if accepts(x) then [x] else []) + rest;
            && multiset(r) <= multiset(xs)
            && forall i :: 0 <= i < |xs| ==> multiset(r)[xs[i]] == if accepts(xs[i]) then multiset(xs)[xs[i]] else 0
  {
    var xs := [x] + tail;
    var head := if accepts(x) then [x] else [];
    var r := head + rest;
    assert multiset(xs) == multiset([x]) + multiset(tail);
    assert multiset(r) == multiset(head) + multiset(rest);
    forall i | 0 <= i < |xs|
      ensures multiset(r)[xs[i]] == if accepts(xs[i]) then multiset(xs)[xs[i]] else 0
    {
      var v := xs[i];
      if v in tail {
        var j :| 0 <= j < |tail| && tail[j] == v;
      } else {
        assert multiset(tail)[v] == 0;
        assert multiset(rest)[v] == 0;
      }
    }
  }

  /** Filtering a concatenation filters each part and keeps them in order. */
  lemma {:induction false} FilterAppend<T>(xs: seq<T>, ys: seq<T>, accepts: T -> bool)
    ensures Filter(xs + ys, accepts) == Filter(xs, accepts) + Filter(ys, accepts)
  {
    if |xs| > 0 {
      assert (xs + ys)[1..] == xs[1..] + ys;
      assert (xs + ys)[0] == xs[0];
      FilterAppend(xs[1..], ys, accepts);
    } else {
      assert xs + ys == ys;
    }
  }

  /** The result holds only accepted elements of the list, and every accepted element. */
  lemma FilterElements<T>(xs: seq<T>, accepts: T -> bool)
    ensures var r := Filter(xs, accepts);
            && (forall i :: 0 <= i < |r| ==> r[i] in xs && accepts(r[i]))
            && (forall i :: 0 <= i < |xs| && accepts(xs[i]) ==> xs[i] in r)
  {
    var r := Filter(xs, accepts);
    forall i | 0 <= i < |r| ensures r[i] in xs && accepts(r[i]) {
      assert r[i] in multiset(r);
      var j :| 0 <= j < |xs| && xs[j] == r[i];
    }
    forall i | 0 <= i < |xs| && accepts(xs[i]) ensures xs[i] in r {
      assert xs[i] in multiset(xs);
    }
  }

  /** A single element is kept exactly when it is accepted. */
  lemma FilterSingle<T>(x: T, accepts: T -> bool)
    ensures Filter([x], accepts) == if accepts(x) then [x] else []
  {
    assert [x][1..] == [];
  }

  /** `contains(value)`. */
  function Contains<T(==)>(xs: seq<T>, value: T): (r: bool)
    ensures r <==> value in xs
  {
    if |xs| == 0 then false
    else xs[0] == value || (assert xs == [xs[0]] + xs[1..]; Contains(xs[1..], value))
  }

  /** `containsAll(values)`. */
  function ContainsAll<T(==)>(xs: seq<T>, values: seq<T>): (r: bool)
    ensures r <==> forall v :: v in values ==> v in xs
  {
    if |values| == 0 then true
    else Contains(xs, values[0]) && (assert values == [values[0]] + values[1..]; ContainsAll(xs, values[1..]))
  }

  /** `all(predicate)`. */
  function All<T>(xs: seq<T>, accepts: T -> bool): (r: bool)
    ensures r <==> forall i :: 0 <= i < |xs| ==> accepts(xs[i])
  {
    if |xs| == 0 then true
    else accepts(xs[0]) && (assert forall i :: 1 <= i < |xs| ==> xs[i] == xs[1..][i - 1]; All(xs[1..], accepts))
  }

  /** `any(predicate)`. */
  function Any<T>(xs: seq<T>, accepts: T -> bool): (r: bool)
    ensures r <==> exists i :: 0 <= i < |xs| && accepts(xs[i])
  {
    if |xs| == 0 then false
    else accepts(xs[0]) || (assert forall i :: 1 <= i < |xs| ==> xs[i] == xs[1..][i - 1]; Any(xs[1..], accepts))
  }

  // ---------------------------------------------------------------------------
  // The bulk combinators

  /**
   * `mapValueList`: both of the source's branches build the same multi-mapped property,
   * whose value is `transform` of the sources' current values in collection order.
   */
  function MapValueList<T(==), R>(sources: seq<Property<T>>, transform: seq<T> -> R): (r: MultiProperty<T, R>)
    reads CellsOfAll(sources)
    ensures r.sources == sources && MultiValue(r) == transform(Values(sources))
  {
    MultiMapped(sources, transform)
  }

  /** `foldValues`: the left fold of the current values. */
  function FoldValues<T(==), R>(sources: seq<Property<T>>, initial: R, operation: (R, T) -> R): (r: MultiProperty<T, R>)
    reads CellsOfAll(sources)
    ensures r.sources == sources && MultiValue(r) == FoldLeft(initial, operation, Values(sources))
  {
    MapValueList(sources, xs => FoldLeft(initial, operation, xs))
  }

  /** `firstValueOrNull`: the first accepted current value. */
  function FirstValueOrNull<T(==)>(sources: seq<Property<T>>, accepts: T -> bool): (r: MultiProperty<T, Option<T>>)
    reads CellsOfAll(sources)
    ensures r.sources == sources && MultiValue(r) == FirstOrNull(Values(sources), accepts)
  {
    MapValueList(sources, xs => FirstOrNull(xs, accepts))
  }

  /** `filterValues`: the accepted current values, in order. */
  function FilterValues<T(==)>(sources: seq<Property<T>>, accepts: T -> bool): (r: MultiProperty<T, seq<T>>)
    reads CellsOfAll(sources)
    ensures r.sources == sources && MultiValue(r) == Filter(Values(sources), accepts)
  {
    MapValueList(sources, xs => Filter(xs, accepts))
  }

  /** `containsValue`: whether some current value is `value`. */
  function ContainsValue<T(==)>(sources: seq<Property<T>>, value: T): (r: MultiProperty<T, bool>)
    reads CellsOfAll(sources)
    ensures r.sources == sources && MultiValue(r) == Contains(Values(sources), value)
  {
    MapValueList(sources, xs => Contains(xs, value))
  }

  /** `containsAllValues`: whether every given value is among the current values. */
  function ContainsAllValues<T(==)>(sources: seq<Property<T>>, values: seq<T>): (r: MultiProperty<T, bool>)
    reads CellsOfAll(sources)
    ensures r.sources == sources && MultiValue(r) == ContainsAll(Values(sources), values)
  {
    MapValueList(sources, xs => ContainsAll(xs, values))
  }

  /** `allValues`: whether every current value is accepted. */
  function AllValues<T(==)>(sources: seq<Property<T>>, accepts: T -> bool): (r: MultiProperty<T, bool>)
    reads CellsOfAll(sources)
    ensures r.sources == sources && MultiValue(r) == All(Values(sources), accepts)
  {
    MapValueList(sources, xs => All(xs, accepts))
  }

  /** `anyValue`: whether some current value is accepted. */
  function AnyValue<T(==)>(sources: seq<Property<T>>, accepts: T -> bool): (r: MultiProperty<T, bool>)
    reads CellsOfAll(sources)
    ensures r.sources == sources && MultiValue(r) == Any(Values(sources), accepts)
  {
    MapValueList(sources, xs => Any(xs, accepts))
  }

  /**
   * One more source, last in the collection: `foldValues` applies its operation once
   * more, to that source's value; `filterValues` appends that value when it is accepted;
   * `firstValueOrNull` looks at it only when no earlier value is accepted.
   */
  lemma ValuesOfOneMoreSource<T, R>(sources: seq<Property<T>>, p: Property<T>, initial: R, operation: (R, T) -> R, accepts: T -> bool)
    ensures MultiValue(FoldValues(sources + [p], initial, operation)) == operation(MultiValue(FoldValues(sources, initial, operation)), Value(p))
    ensures MultiValue(FilterValues(sources + [p], accepts)) == MultiValue(FilterValues(sources, accepts)) + (if accepts(Value(p)) then [Value(p)] else [])
    ensures var before := MultiValue(FirstValueOrNull(sources, accepts));
            MultiValue(FirstValueOrNull(sources + [p], accepts)) == if before.Some? then before else if accepts(Value(p)) then Some(Value(p)) else None
  {
    FoldValuesOneMore(sources, p, initial, operation);
    FilterValuesOneMore(sources, p, accepts);
    FirstValueOrNullOneMore(sources, p, accepts);
  }

  /** The current values of one more source: one more value at the end. */
  lemma ValuesSnoc<T>(sources: seq<Property<T>>, p: Property<T>)
    ensures Values(sources + [p]) == Values(sources) + [Value(p)]
  {
  }

  /** `foldValues` over one more source applies its operation once more, to that source's value. */
  lemma FoldValuesOneMore<T, R>(sources: seq<Property<T>>, p: Property<T>, initial: R, operation: (R, T) -> R)
    ensures MultiValue(FoldValues(sources + [p], initial, operation)) == operation(MultiValue(FoldValues(sources, initial, operation)), Value(p))
  {
    ValuesSnoc(sources, p);
    FoldLeftSnoc(initial, operation, Values(sources), Value(p));
  }

  /** `filterValues` over one more source appends that source's value exactly when it is accepted. */
  lemma FilterValuesOneMore<T>(sources: seq<Property<T>>, p: Property<T>, accepts: T -> bool)
    ensures MultiValue(FilterValues(sources + [p], accepts)) == MultiValue(FilterValues(sources, accepts)) + (if accepts(Value(p)) then [Value(p)] else [])
  {
    ValuesSnoc(sources, p);
    FilterAppend(Values(sources), [Value(p)], accepts);
    FilterSingle(Value(p), accepts);
  }

  /** `firstValueOrNull` over one more source looks at that source only when no earlier value is accepted. */
  lemma FirstValueOrNullOneMore<T>(sources: seq<Property<T>>, p: Property<T>, accepts: T -> bool)
    ensures var before := MultiValue(FirstValueOrNull(sources, accepts));
            MultiValue(FirstValueOrNull(sources + [p], accepts)) == if before.Some? then before else if accepts(Value(p)) then Some(Value(p)) else None
  {
    ValuesSnoc(sources, p);
    FirstOrNullSnoc(Values(sources), Value(p), accepts);
  }

  /** The first accepted element of `xs + [x]`: the one of `xs`, or else `x` if accepted. */
  lemma {:induction false} FirstOrNullSnoc<T>(xs: seq<T>, x: T, accepts: T -> bool)
    ensures FirstOrNull(xs + [x], accepts) == if FirstOrNull(xs, accepts).Some? then FirstOrNull(xs, accepts) else if accepts(x) then Some(x) else None
  {
    if |xs| > 0 {
      assert (xs + [x])[1..] == xs[1..] + [x];
      FirstOrNullSnoc(xs[1..], x, accepts);
    }
  }

  /** `containsValue` and `containsAllValues` hold whether the current values include the given ones. */
  lemma ContainsValues<T>(sources: seq<Property<T>>, value: T, values: seq<T>)
    ensures MultiValue(ContainsValue(sources, value)) <==> exists i :: 0 <= i < |sources| && Value(sources[i]) == value
    ensures MultiValue(ContainsAllValues(sources, values)) <==> forall v :: v in values ==> v in Values(sources)
  {
    var vs := Values(sources);
    assert MultiValue(ContainsValue(sources, value)) == Contains(vs, value);
    assert MultiValue(ContainsAllValues(sources, values)) == ContainsAll(vs, values);
  }

  /** `allValues` and `anyValue` quantify the predicate over the current values. */
  lemma QuantifiedValues<T>(sources: seq<Property<T>>, accepts: T -> bool)
    ensures MultiValue(AllValues(sources, accepts)) <==> forall i :: 0 <= i < |sources| ==> accepts(Value(sources[i]))
    ensures MultiValue(AnyValue(sources, accepts)) <==> exists i :: 0 <= i < |sources| && accepts(Value(sources[i]))
  {
    var vs := Values(sources);
    assert MultiValue(AllValues(sources, accepts)) == All(vs, accepts);
    assert MultiValue(AnyValue(sources, accepts)) == Any(vs, accepts);
  }
}
