/**
 * The listener registry of an event-emitting object (EventEmitterTrait) and
 * the public contract it implements (EventEmitterInterface).
 *
 * The registry maps each declared event identifier to its listener set.  Every
 * operation is a pure function from the registry before the call to the
 * registry after it; a thrown InvalidEventException is the `Err` result, and
 * the registry is then left as it was.  `emit` returns the calls it made (the
 * listener and the forwarded arguments, in order) together with the registry
 * after the one-shot wrappers have removed themselves.
 */
module EventEmitter {
  import opened Callables
  import opened ListenerSets

  /** An event identifier: a string or an integer. */
  datatype EventId = StringEvent(name: string) | IntEvent(number: int)

  datatype Option<T> = None | Some(value: T)

  /** InvalidEventException, carrying the offending identifier. */
  datatype Error = InvalidEvent(event: EventId)

  datatype Result<T> = Ok(value: T) | Err(error: Error)

  /** The `$listeners` property: declared events and their listener sets. */
  datatype Emitter = Emitter(listeners: map<EventId, seq<Slot>>)

  /** One invocation made by `emit`. */
  datatype Call = Call(listener: Listener, args: seq<Value>)

  /** What `emit` yields: its return value, the calls made, and the registry afterwards. */
  datatype Emission = Emission(fired: bool, calls: seq<Call>, after: Emitter)

  /** A freshly constructed host object: no event declared yet. */
  const Fresh: Emitter := Emitter(map[])

  /** Every declared event's listener set is keyed by original listener, without duplicates. */
  predicate Valid(s: Emitter)
  {
    forall e :: e in s.listeners ==> WellFormed(s.listeners[e])
  }

  /** `r` declares the same events as `s` and differs from it at most at `ev`. */
  predicate OnlyChanges(s: Emitter, r: Emitter, ev: EventId)
  {
    && r.listeners.Keys == s.listeners.Keys
    && forall e :: e in s.listeners && e != ev ==> r.listeners[e] == s.listeners[e]
  }

  /** A registry that changes at most `ev`, and not `ev` either, is unchanged. */
  lemma UnchangedAtEvent(s: Emitter, r: Emitter, ev: EventId)
    requires OnlyChanges(s, r, ev)
    requires ev in s.listeners && r.listeners[ev] == s.listeners[ev]
    ensures r == s
  {
  }

  /** createEvent: declares `ev`; a declared event keeps its listeners. */
  function CreateEvent(s: Emitter, ev: EventId): (r: Emitter)
    ensures r.listeners.Keys == s.listeners.Keys + {ev}
    ensures forall e :: e in s.listeners ==> r.listeners[e] == s.listeners[e]
    ensures ev !in s.listeners ==> r.listeners[ev] == []
    ensures Valid(s) ==> Valid(r)
  {
    if ev in s.listeners then s else Emitter(s.listeners[ev := []])
  }

  /**
   * addListener: files `l` (wrapped as a one-shot entry when `once` is set)
   * under its key at the end of the event's set, unless that key is already
   * there, in which case nothing changes.
   */
  function AddListener(s: Emitter, ev: EventId, l: Listener, once: bool): (r: Result<Emitter>)
    ensures r.Err? <==> ev !in s.listeners
    ensures r.Err? ==> r.error == InvalidEvent(ev)
    ensures r.Ok? ==> OnlyChanges(s, r.value, ev)
    ensures r.Ok? && HasKey(s.listeners[ev], ListenerKey(l)) ==> r.value == s
    ensures r.Ok? && !HasKey(s.listeners[ev], ListenerKey(l)) ==>
      var before, after := s.listeners[ev], r.value.listeners[ev];
      && |after| == |before| + 1
      && after[..|before|] == before
      && after[|before|].key == ListenerKey(l)
      && after[|before|].entry.listener == l
      && after[|before|].entry.OneShot? == once
    ensures r.Ok? && Valid(s) ==> Valid(r.value)
  {
    if ev !in s.listeners then Err(InvalidEvent(ev))
    else
      var slots := s.listeners[ev];
      var k := ListenerKey(l);
      if HasKey(slots, k) then Ok(s)
      else
        var entry := if once then OneShot(l) else Persistent(l);
        Ok(Emitter(s.listeners[ev := slots + [Slot(k, entry)]]))
  }

  /** on: addListener without the one-shot flag; a new listener is stored as itself. */
  function On(s: Emitter, ev: EventId, l: Listener): (r: Result<Emitter>)
    ensures r == AddListener(s, ev, l, false)
    ensures r.Ok? && !HasKey(s.listeners[ev], ListenerKey(l)) ==>
      r.value.listeners[ev] == s.listeners[ev] + [Slot(ListenerKey(l), Persistent(l))]
  {
    AddListener(s, ev, l, false)
  }

  /**
   * once: addListener with the one-shot flag; a new listener is stored as a
   * one-shot wrapper under its own key.
   */
  function Once(s: Emitter, ev: EventId, l: Listener): (r: Result<Emitter>)
    ensures r == AddListener(s, ev, l, true)
    ensures r.Ok? && !HasKey(s.listeners[ev], ListenerKey(l)) ==>
      r.value.listeners[ev] == s.listeners[ev] + [Slot(ListenerKey(l), OneShot(l))]
  {
    AddListener(s, ev, l, true)
  }

  /**
   * removeListener: unsets the slot under `l`'s key, if any.  The other slots
   * keep their order; an absent listener is silently ignored.
   */
  function RemoveListener(s: Emitter, ev: EventId, l: Listener): (r: Result<Emitter>)
    ensures r.Err? <==> ev !in s.listeners
    ensures r.Err? ==> r.error == InvalidEvent(ev)
    ensures r.Ok? ==> OnlyChanges(s, r.value, ev)
    ensures r.Ok? ==> !HasKey(r.value.listeners[ev], ListenerKey(l))
    ensures r.Ok? && !HasKey(s.listeners[ev], ListenerKey(l)) ==> r.value == s
    ensures r.Ok? && UniqueKeys(s.listeners[ev]) ==>
      var before := s.listeners[ev];
      forall i :: 0 <= i < |before| && before[i].key == ListenerKey(l) ==>
        r.value.listeners[ev] == before[..i] + before[i + 1..]
    ensures r.Ok? && Valid(s) ==> Valid(r.value)
  {
    if ev !in s.listeners then Err(InvalidEvent(ev))
    else
      var slots := s.listeners[ev];
      var k := ListenerKey(l);
      var rest := Without(slots, {k});
      WithoutOneKey(slots, k);
      WithoutWellFormed(slots, {k});
      Ok(Emitter(s.listeners[ev := rest]))
  }

  /** off: alias of removeListener, failing alike on an undeclared event. */
  function Off(s: Emitter, ev: EventId, l: Listener): (r: Result<Emitter>)
    ensures r == RemoveListener(s, ev, l)
    ensures r.Err? <==> ev !in s.listeners
    ensures r.Ok? ==> !HasKey(r.value.listeners[ev], ListenerKey(l))
  {
    RemoveListener(s, ev, l)
  }

  /**
   * removeAllListeners: with no identifier every declared event's set is
   * emptied; with one, only that event's.  No event is undeclared.
   */
  function RemoveAllListeners(s: Emitter, ev: Option<EventId>): (r: Result<Emitter>)
    ensures r.Err? <==> ev.Some? && ev.value !in s.listeners
    ensures r.Err? ==> r.error == InvalidEvent(ev.value)
    ensures r.Ok? ==> r.value.listeners.Keys == s.listeners.Keys
    ensures r.Ok? && ev.None? ==> forall e :: e in r.value.listeners ==> r.value.listeners[e] == []
    ensures r.Ok? && ev.Some? ==> OnlyChanges(s, r.value, ev.value) && r.value.listeners[ev.value] == []
    ensures r.Ok? && ev.None? ==> Valid(r.value)
    ensures r.Ok? && Valid(s) ==> Valid(r.value)
  {
    match ev
    case None => Ok(Emitter(map e | e in s.listeners :: []))
    case Some(e) =>
      if e !in s.listeners then Err(InvalidEvent(e))
      else Ok(Emitter(s.listeners[e := []]))
  }

  /** getListeners: the event's stored entries with their keys, in dispatch order. */
  function GetListeners(s: Emitter, ev: EventId): (r: Result<seq<Slot>>)
    ensures r.Err? <==> ev !in s.listeners
    ensures r.Err? ==> r.error == InvalidEvent(ev)
    ensures r.Ok? ==> r.value == s.listeners[ev]
  {
    if ev !in s.listeners then Err(InvalidEvent(ev)) else Ok(s.listeners[ev])
  }

  /** getListenerCount: how many listeners getListeners would return. */
  function GetListenerCount(s: Emitter, ev: EventId): (r: Result<nat>)
    ensures r.Err? <==> ev !in s.listeners
    ensures r.Err? ==> r.error == InvalidEvent(ev)
    ensures r.Ok? ==> r.value == |GetListeners(s, ev).value|
  {
    if ev !in s.listeners then Err(InvalidEvent(ev)) else Ok(|s.listeners[ev]|)
  }

  /** emits (interface contract only): whether `ev` is a defined event identifier. */
  function Emits(s: Emitter, ev: EventId): (r: bool)
    ensures r <==> GetListeners(s, ev).Ok?
  {
    ev in s.listeners
  }

  /** getEventList (interface contract only): the defined event identifiers. */
  function GetEventList(s: Emitter): (r: set<EventId>)
    ensures forall e :: e in r <==> Emits(s, e)
  {
    s.listeners.Keys
  }

  /**
   * What calling a stored entry does to the registry: a one-shot wrapper
   * calls removeListener with the listener it captured; a plain listener is
   * assumed not to touch the registry.
   */
  function CallEffect(em: Emitter, ev: EventId, entry: Entry): (r: Emitter)
    requires ev in em.listeners
    ensures OnlyChanges(em, r, ev)
    ensures r.listeners[ev] == Without(em.listeners[ev], RemovedBy(entry))
  {
    if entry.OneShot? then RemoveListener(em, ev, entry.listener).value
    else
      WithoutAbsent(em.listeners[ev], {});
      em
  }

  /**
   * The foreach of emit over the snapshot `snap` of the event's set, made
   * against the live registry `em`: each entry is called in turn with the
   * same arguments, and its effect is applied to the live registry only.
   */
  function Dispatch(snap: seq<Slot>, ev: EventId, args: seq<Value>, em: Emitter): (r: (seq<Call>, Emitter))
    requires ev in em.listeners
    ensures |r.0| == |snap|
    ensures forall i :: 0 <= i < |snap| ==> r.0[i] == Call(snap[i].entry.listener, args)
    ensures OnlyChanges(em, r.1, ev)
    ensures r.1.listeners[ev] == Without(em.listeners[ev], OneShotKeys(snap))
    decreases |snap|
  {
    if snap == [] then
      WithoutAbsent(em.listeners[ev], {});
      ([], em)
    else
      var entry := snap[0].entry;
      var (rest, em') := Dispatch(snap[1..], ev, args, CallEffect(em, ev, entry));
      WithoutTwice(em.listeners[ev], RemovedBy(entry), OneShotKeys(snap[1..]));
      ([Call(entry.listener, args)] + rest, em')
  }

  /**
   * emit: an undeclared event throws; an empty set yields false with no call;
   * otherwise every stored listener is called once, in insertion order, with
   * the same arguments, and the result is true.  The walk is over the set as
   * it was when emit started.
   */
  function Emit(s: Emitter, ev: EventId, args: seq<Value>): (r: Result<Emission>)
    ensures r.Err? <==> ev !in s.listeners
    ensures r.Err? ==> r.error == InvalidEvent(ev)
    ensures r.Ok? ==> (r.value.fired <==> |s.listeners[ev]| > 0)
    ensures r.Ok? ==>
      && |r.value.calls| == |s.listeners[ev]|
      && forall i :: 0 <= i < |s.listeners[ev]| ==> r.value.calls[i] == Call(s.listeners[ev][i].entry.listener, args)
    ensures r.Ok? ==> OnlyChanges(s, r.value.after, ev)
    ensures r.Ok? && !r.value.fired ==> r.value.after == s
    ensures r.Ok? && WellFormed(s.listeners[ev]) ==> r.value.after.listeners[ev] == PersistentOnly(s.listeners[ev])
    ensures r.Ok? && Valid(s) ==> Valid(r.value.after)
  {
    if ev !in s.listeners then Err(InvalidEvent(ev))
    else if |s.listeners[ev]| == 0 then Ok(Emission(false, [], s))
    else
      var snap := s.listeners[ev];
      var (calls, after) := Dispatch(snap, ev, args, s);
      WithoutWellFormed(snap, OneShotKeys(snap));
      assert WellFormed(snap) ==> after.listeners[ev] == PersistentOnly(snap) by {
        if WellFormed(snap) {
          OneShotsLeavePersistent(snap);
        }
      }
      Ok(Emission(true, calls, after))
  }
}
