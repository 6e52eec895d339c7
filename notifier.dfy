/**
 * The notification base of a property: how listeners are registered (bare, or wrapped
 * in a `ConfinedChangeListener` bound to an executor), found and removed, and how a
 * value is packed for delivery. A notifier is concurrent or thread-confined for life.
 * The listener storage itself is seen as a sequence of optional slots.
 */
module Notify {
  import opened Wrappers

  /** An executor, compared by identity; `Unconfined` runs listeners on the mutating thread. */
  datatype Executor = Unconfined | Exec(id: nat)

  type ThreadId = nat

  /** A `ChangeListener`: only its identity matters here. */
  class Listener {
    constructor () {}
  }

  /** `ConfinedChangeListener`: a listener delivered through an executor; removal cancels it. */
  class ConfinedChangeListener {
    const executor: Executor
    const actual: Listener
    var canceled: bool

    constructor (executor: Executor, actual: Listener)
      ensures this.executor == executor && this.actual == actual && !canceled
    {
      this.executor := executor;
      this.actual := actual;
      canceled := false;
    }
  }

  /** What a slot holds: the listener itself, or a wrapper around it. */
  datatype Entry = Bare(listener: Listener) | Wrapped(wrapper: ConfinedChangeListener)

  /** The confined storage `nonSyncListeners`: nothing, one listener, or an array of slots. */
  datatype ConfinedStore = NoListeners | SingleListener(entry: Entry) | ListenerArray(slots: seq<Option<Entry>>)

  /** `lis.any { it != null }`. */
  function AnyPresent(slots: seq<Option<Entry>>): (b: bool)
    ensures b <==> exists k :: 0 <= k < |slots| && slots[k].Some?
  {
    if |slots| == 0 then false
    else slots[0].Some? || (assert forall k :: 1 <= k < |slots| ==> slots[k] == slots[1..][k - 1]; AnyPresent(slots[1..]))
  }

  /** The listeners a sequence of slots holds, in order. */
  function Live(slots: seq<Option<Entry>>): seq<Entry> {
    if |slots| == 0 then []
    else (if slots[0].Some? then [slots[0].value] else []) + Live(slots[1..])
  }

  /** The removal predicate: the listener itself, or a wrapper whose `actual` it is. */
  predicate Matches(slot: Option<Entry>, onChange: Listener) {
    match slot
    case None => false
    case Some(Bare(l)) => l == onChange
    case Some(Wrapped(w)) => w.actual == onChange
  }

  /** The first slot the removal predicate accepts. */
  function FirstMatch(slots: seq<Option<Entry>>, onChange: Listener): (r: Option<nat>)
    ensures r.Some? ==> r.value < |slots| && Matches(slots[r.value], onChange)
    ensures r.Some? ==> forall j :: 0 <= j < r.value ==> !Matches(slots[j], onChange)
    ensures r.None? ==> forall j :: 0 <= j < |slots| ==> !Matches(slots[j], onChange)
  {
    if |slots| == 0 then None
    else if Matches(slots[0], onChange) then Some(0)
    else match FirstMatch(slots[1..], onChange)
      case None => None
      case Some(k) => Some(k + 1)
  }

  /** The wrappers among the slots, which removal may cancel. */
  function WrappersIn(slots: seq<Option<Entry>>): set<ConfinedChangeListener> {
    set k | 0 <= k < |slots| && slots[k].Some? && slots[k].value.Wrapped? :: slots[k].value.wrapper
  }

  class Notifier {
    /** `thread`: `None` for a concurrent notifier, the creating thread for a confined one. */
    const thread: Option<ThreadId>
    /** The concurrent state's listener slots. */
    var concurrentSlots: seq<Option<Entry>>
    /** The confined storage. */
    var confined: ConfinedStore

    /** Only the storage of the notifier's own mode is ever used. */
    predicate Valid()
      reads this
    {
      && (thread.None? ==> confined == NoListeners)
      && (thread.Some? ==> concurrentSlots == [])
    }

    /** The listener slots of whichever storage the mode uses. */
    function Slots(): seq<Option<Entry>>
      reads this
    {
      if thread.None? then concurrentSlots
      else match confined
        case NoListeners => []
        case SingleListener(e) => [Some(e)]
        case ListenerArray(s) => s
    }

    /** The mode is fixed here: `thread` is `None` exactly for a concurrent notifier. */
    constructor (concurrent: bool, currentThread: ThreadId)
      ensures Valid()
      ensures thread.None? <==> concurrent
      ensures !concurrent ==> thread == Some(currentThread)
      ensures Slots() == []
    {
      thread := if concurrent then None else Some(currentThread);
      concurrentSlots := [];
      confined := NoListeners;
    }

    /** `isBeingObserved`: some slot holds a listener. */
    function IsBeingObserved(): (b: bool)
      reads this
      ensures b <==> exists k :: 0 <= k < |Slots()| && Slots()[k].Some?
      ensures thread.Some? && confined == NoListeners ==> !b
      ensures thread.Some? && confined.SingleListener? ==> b
    {
      if thread.None? then (assert Slots() == concurrentSlots; AnyPresent(concurrentSlots))
      else match confined
        case NoListeners => false
        case SingleListener(_) => (assert Slots()[0].Some?; true)
        case ListenerArray(s) => (assert Slots() == s; AnyPresent(s))
    }

    /** The storage's add operation: one more slot, holding `e`, at the end. */
    method Append(e: Entry)
      requires Valid()
      modifies this
      ensures Valid()
      ensures Slots() == old(Slots()) + [Some(e)]
    {
      if thread.None? {
        concurrentSlots := concurrentSlots + [Some(e)];
      } else {
        match confined
        case NoListeners =>
          confined := SingleListener(e);
        case SingleListener(x) =>
          confined := ListenerArray([Some(x), Some(e)]);
        case ListenerArray(s) =>
          confined := ListenerArray(s + [Some(e)]);
      }
    }

    /**
     * `addChangeListener`: a concurrent notifier always wraps the listener with the
     * current thread's executor; a confined one stores it bare.
     */
    method AddChangeListener(onChange: Listener, currentThreadExecutor: Executor)
      requires Valid()
      modifies this
      ensures Valid()
      ensures |Slots()| == |old(Slots())| + 1 && Slots()[..|old(Slots())|] == old(Slots())
      ensures Slots()[|old(Slots())|].Some?
      ensures var e := Slots()[|old(Slots())|].value;
              && (thread.Some? ==> e == Bare(onChange))
              && (thread.None? ==>
                    && e.Wrapped? && fresh(e.wrapper) && !e.wrapper.canceled
                    && e.wrapper.actual == onChange && e.wrapper.executor == currentThreadExecutor)
    {
      if thread.None? {
        var w := new ConfinedChangeListener(currentThreadExecutor, onChange);
        Append(Wrapped(w));
      } else {
        Append(Bare(onChange));
      }
    }

    /**
     * `addChangeListenerOn`: the listener is stored bare for the unconfined executor in
     * either mode and, in a confined notifier, also for the current thread's own
     * executor; otherwise it is wrapped with `executor`.
     */
    method AddChangeListenerOn(executor: Executor, onChange: Listener, currentThreadExecutor: Option<Executor>)
      requires Valid()
      modifies this
      ensures Valid()
      ensures |Slots()| == |old(Slots())| + 1 && Slots()[..|old(Slots())|] == old(Slots())
      ensures Slots()[|old(Slots())|].Some?
      ensures var e := Slots()[|old(Slots())|].value;
              var bare := executor == Unconfined || (thread.Some? && currentThreadExecutor == Some(executor));
              && (bare ==> e == Bare(onChange))
              && (!bare ==>
                    && e.Wrapped? && fresh(e.wrapper) && !e.wrapper.canceled
                    && e.wrapper.actual == onChange && e.wrapper.executor == executor)
    {
      var bare;
      if thread.None? {
        bare := executor == Unconfined;
      } else {
        bare := executor == Unconfined || currentThreadExecutor == Some(executor);
      }
      if bare {
        Append(Bare(onChange));
      } else {
        var w := new ConfinedChangeListener(executor, onChange);
        Append(Wrapped(w));
      }
    }

    /**
     * `removeChangeListener`: the first slot holding `onChange`, or a wrapper of it, is
     * emptied, whatever executor it was added on, and a matched wrapper is canceled.
     */
    method RemoveChangeListener(onChange: Listener)
      requires Valid()
      modifies this, WrappersIn(Slots())
      ensures Valid()
      ensures FirstMatch(old(Slots()), onChange).None? ==>
                Slots() == old(Slots()) && forall w :: w in WrappersIn(old(Slots())) ==> w.canceled == old(w.canceled)
      ensures FirstMatch(old(Slots()), onChange).Some? ==>
                var k := FirstMatch(old(Slots()), onChange).value;
                && Live(Slots()) == Live(old(Slots())[k := None])
                && (old(Slots())[k].value.Wrapped? ==> old(Slots())[k].value.wrapper.canceled)
                && forall w :: w in WrappersIn(old(Slots())) && Some(Wrapped(w)) != old(Slots())[k] ==>
                                 w.canceled == old(w.canceled)
    {
      var slots := Slots();
      var i := 0;
      while i < |slots| && !Matches(slots[i], onChange)
        invariant i <= |slots|
        invariant forall j :: 0 <= j < i ==> !Matches(slots[j], onChange)
      {
        i := i + 1;
      }
      if i == |slots| {
        return;
      }
      assert FirstMatch(slots, onChange) == Some(i) by {
        var r := FirstMatch(slots, onChange);
        assert r.Some? && r.value <= i;
      }
      if slots[i].value.Wrapped? {
        slots[i].value.wrapper.canceled := true;
      }
      if thread.None? {
        concurrentSlots := concurrentSlots[i := None];
      } else {
        match confined
        case SingleListener(_) =>
          confined := NoListeners;
          assert Live(slots[i := None]) == [];
        case ListenerArray(s) =>
          confined := ListenerArray(s[i := None]);
      }
    }
  }

  /** A listener that was just added is what the next removal of it finds, if nothing earlier matches. */
  lemma AddedListenerIsFound(slots: seq<Option<Entry>>, onChange: Listener, e: Entry)
    requires e == Bare(onChange) || (e.Wrapped? && e.wrapper.actual == onChange)
    ensures FirstMatch(slots + [Some(e)], onChange).Some?
    ensures FirstMatch(slots, onChange).None? ==> FirstMatch(slots + [Some(e)], onChange) == Some(|slots|)
  {
    var s := slots + [Some(e)];
    assert Matches(s[|slots|], onChange);
    if FirstMatch(slots, onChange).None? {
      assert forall j :: 0 <= j < |slots| ==> s[j] == slots[j];
    }
  }

  /** A notifier is observed exactly when it holds some listener. */
  lemma ObservedIffLive(slots: seq<Option<Entry>>)
    ensures AnyPresent(slots) <==> |Live(slots)| > 0
  {
    if |slots| > 0 {
      ObservedIffLive(slots[1..]);
      assert forall k :: 1 <= k < |slots| ==> slots[k] == slots[1..][k - 1];
    }
  }

  // ---------------------------------------------------------------------------
  // Value packing and delivery

  /** `pack`: the packed form of an update is the new value; the diff is dropped. */
  function Pack<T, D>(newValue: T, diff: D): (packed: T)
    ensures packed == newValue
  {
    newValue
  }

  function UnpackValue<T>(packed: T): (value: T)
    ensures value == packed
  {
    packed
  }

  /** `unpackDiff`: always `null`. */
  function UnpackDiff<T>(packed: T): (diff: Option<T>)
    ensures diff.None?
  {
    None
  }

  /** Unpacking a packed update gives back the value and no diff. */
  lemma PackRoundTrip<T, D>(newValue: T, diff: D)
    ensures UnpackValue(Pack(newValue, diff)) == newValue
    ensures UnpackDiff(Pack(newValue, diff)) == None
  {
  }

  /** A delivered notification: which listener was invoked with which arguments. */
  datatype Call<T> = Call(listener: Listener, oldValue: T, newValue: T)

  /** `notify`: the listener is invoked with exactly `(old, new)`; the diff is not passed. */
  function Deliver<T, D>(listener: Listener, oldValue: T, newValue: T, diff: D): (call: Call<T>)
    ensures call.listener == listener && call.oldValue == oldValue && call.newValue == newValue
  {
    Call(listener, oldValue, newValue)
  }
}
