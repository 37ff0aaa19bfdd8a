/**
 * Properties of the listener registry that relate several operations: the
 * invariant every reachable registry keeps, the inverse of adding a
 * listener, duplicate registration, dispatch order and one-shot listeners.
 */
module EmitterProperties {
  import opened Callables
  import opened ListenerSets
  import opened EventEmitter

  /** Any operation the host object or a caller can perform on the registry. */
  datatype Op =
    | Declare(ev: EventId)
    | Add(ev: EventId, l: Listener, once: bool)
    | Remove(ev: EventId, l: Listener)
    | RemoveAll(target: Option<EventId>)
    | Fire(ev: EventId, args: seq<Value>)

  /**
   * The registry after `op`.  A call that throws leaves the registry as it
   * was.  Only a declaration adds an event, and nothing removes one.
   */
  function Step(s: Emitter, op: Op): (r: Emitter)
    ensures Valid(s) ==> Valid(r)
    ensures s.listeners.Keys <= r.listeners.Keys
    ensures !op.Declare? ==> r.listeners.Keys == s.listeners.Keys
    ensures op.Declare? ==> r.listeners.Keys == s.listeners.Keys + {op.ev}
  {
    match op
    case Declare(ev) => CreateEvent(s, ev)
    case Add(ev, l, once) =>
      var r := AddListener(s, ev, l, once);
      if r.Ok? then r.value else s
    case Remove(ev, l) =>
      var r := RemoveListener(s, ev, l);
      if r.Ok? then r.value else s
    case RemoveAll(target) =>
      var r := RemoveAllListeners(s, target);
      if r.Ok? then r.value else s
    case Fire(ev, args) =>
      var r := Emit(s, ev, args);
      if r.Ok? then r.value.after else s
  }

  /** The registry after a sequence of operations. */
  function Run(s: Emitter, ops: seq<Op>): Emitter
    decreases |ops|
  {
    if ops == [] then s else Run(Step(s, ops[0]), ops[1..])
  }

  /** Any sequence of operations keeps the registry valid and undeclares no event. */
  lemma {:induction false} RunKeepsInvariant(s: Emitter, ops: seq<Op>)
    requires Valid(s)
    ensures Valid(Run(s, ops))
    ensures s.listeners.Keys <= Run(s, ops).listeners.Keys
    decreases |ops|
  {
    if ops != [] {
      RunKeepsInvariant(Step(s, ops[0]), ops[1..]);
    }
  }

  /** Every registry a host object can reach from construction is valid. */
  lemma ReachableIsValid(ops: seq<Op>)
    ensures Valid(Run(Fresh, ops))
  {
    RunKeepsInvariant(Fresh, ops);
  }

  /** Every operation but the declaration and emits/getEventList rejects an undeclared event. */
  lemma UnknownEventRejected(s: Emitter, ev: EventId, l: Listener, once: bool, args: seq<Value>)
    requires ev !in s.listeners
    ensures AddListener(s, ev, l, once) == Err(InvalidEvent(ev))
    ensures On(s, ev, l) == Err(InvalidEvent(ev))
    ensures Once(s, ev, l) == Err(InvalidEvent(ev))
    ensures RemoveListener(s, ev, l) == Err(InvalidEvent(ev))
    ensures Off(s, ev, l) == Err(InvalidEvent(ev))
    ensures RemoveAllListeners(s, Some(ev)) == Err(InvalidEvent(ev))
    ensures GetListeners(s, ev) == Err(InvalidEvent(ev))
    ensures GetListenerCount(s, ev) == Err(InvalidEvent(ev))
    ensures Emit(s, ev, args) == Err(InvalidEvent(ev))
    ensures !Emits(s, ev) && ev !in GetEventList(s)
  {
  }

  /** emits holds exactly when the event is usable by every other operation. */
  lemma EmitsIffUsable(s: Emitter, ev: EventId, l: Listener, once: bool, args: seq<Value>)
    ensures Emits(s, ev) <==> AddListener(s, ev, l, once).Ok?
    ensures Emits(s, ev) <==> RemoveListener(s, ev, l).Ok?
    ensures Emits(s, ev) <==> RemoveAllListeners(s, Some(ev)).Ok?
    ensures Emits(s, ev) <==> GetListenerCount(s, ev).Ok?
    ensures Emits(s, ev) <==> Emit(s, ev, args).Ok?
    ensures Emits(s, ev) <==> ev in GetEventList(s)
  {
  }

  /** Declaring twice is declaring once, and never clears a declared event. */
  lemma CreateEventIdempotent(s: Emitter, ev: EventId)
    ensures CreateEvent(CreateEvent(s, ev), ev) == CreateEvent(s, ev)
    ensures ev in s.listeners ==> CreateEvent(s, ev) == s
  {
  }

  /** A newly declared event is known, has no listeners, and emitting it calls nothing. */
  lemma DeclaredEventStartsEmpty(s: Emitter, ev: EventId, args: seq<Value>)
    requires ev !in s.listeners
    ensures var d := CreateEvent(s, ev);
      && Emits(d, ev)
      && GetListeners(d, ev) == Ok([])
      && GetListenerCount(d, ev) == Ok(0)
      && Emit(d, ev, args) == Ok(Emission(false, [], d))
  {
  }

  /**
   * Adding a listener whose key is already filed changes nothing: not the
   * count, not the order, not whether the stored entry is one-shot.
   */
  lemma DuplicateAddIsNoop(s: Emitter, ev: EventId, l: Listener, first: bool, second: bool)
    requires ev in s.listeners
    ensures var s1 := AddListener(s, ev, l, first).value;
      && AddListener(s1, ev, l, second) == Ok(s1)
      && GetListenerCount(s1, ev) == GetListenerCount(AddListener(s1, ev, l, second).value, ev)
  {
  }

  /**
   * The entry filed for a new listener keeps the nature of its first
   * registration: `once` after `on` leaves it persistent, `on` after `once`
   * leaves it one-shot.
   */
  lemma FirstRegistrationDecides(s: Emitter, ev: EventId, l: Listener, first: bool, second: bool)
    requires ev in s.listeners
    requires !HasKey(s.listeners[ev], ListenerKey(l))
    ensures var s2 := AddListener(AddListener(s, ev, l, first).value, ev, l, second).value;
      var slots := s2.listeners[ev];
      && |slots| == |s.listeners[ev]| + 1
      && slots[|slots| - 1] == Slot(ListenerKey(l), if first then OneShot(l) else Persistent(l))
  {
  }

  /**
   * removeListener undoes a fresh addListener, whether the entry is the
   * listener itself or its one-shot wrapper: the wrapper is filed under the
   * original listener's key.
   */
  lemma {:induction false} RemoveUndoesAdd(s: Emitter, ev: EventId, l: Listener, once: bool)
    requires ev in s.listeners
    requires !HasKey(s.listeners[ev], ListenerKey(l))
    ensures RemoveListener(AddListener(s, ev, l, once).value, ev, l) == Ok(s)
  {
    var before := s.listeners[ev];
    var k := ListenerKey(l);
    var s1 := AddListener(s, ev, l, once).value;
    var grown := s1.listeners[ev];
    var added := grown[|before|];
    assert grown == grown[..|before|] + [added];
    assert grown == before + [added];
    WithoutAppend(before, [added], {k});
    WithoutAbsent(before, {k});
    assert Without([added], {k}) == [];
    var r := RemoveListener(s1, ev, l).value;
    assert r.listeners[ev] == Without(grown, {k}) == before;
    UnchangedAtEvent(s, r, ev);
  }

  /** Removing a listener and adding it back files it at the end of the set. */
  lemma ReAddGoesToEnd(s: Emitter, ev: EventId, l: Listener, once: bool, i: nat)
    requires Valid(s)
    requires ev in s.listeners
    requires i < |s.listeners[ev]| && s.listeners[ev][i].key == ListenerKey(l)
    ensures var before := s.listeners[ev];
      var s2 := AddListener(RemoveListener(s, ev, l).value, ev, l, once).value;
      s2.listeners[ev] == before[..i] + before[i + 1..] + [Slot(ListenerKey(l), if once then OneShot(l) else Persistent(l))]
  {
  }

  /** removeAllListeners() empties every set and keeps the event list. */
  lemma RemoveAllKeepsEvents(s: Emitter, ev: EventId)
    requires ev in s.listeners
    ensures var r := RemoveAllListeners(s, None).value;
      && GetEventList(r) == GetEventList(s)
      && GetListenerCount(r, ev) == Ok(0)
      && Emit(r, ev, []) == Ok(Emission(false, [], r))
  {
  }

  /** Emitting an event none of whose listeners is one-shot leaves the registry as it was. */
  lemma PersistentEmitKeepsRegistry(s: Emitter, ev: EventId, args: seq<Value>)
    requires ev in s.listeners && WellFormed(s.listeners[ev])
    requires forall i :: 0 <= i < |s.listeners[ev]| ==> s.listeners[ev][i].entry.Persistent?
    ensures Emit(s, ev, args).value.after == s
  {
    PersistentOnlyOfPersistent(s.listeners[ev]);
    var e := Emit(s, ev, args).value;
    if e.fired {
      UnchangedAtEvent(s, e.after, ev);
    }
  }

  /** Adding A then B to an empty set stores A then B. */
  lemma OnTwiceStoresInOrder(s: Emitter, ev: EventId, a: Listener, b: Listener)
    requires ev in s.listeners && s.listeners[ev] == []
    requires ListenerKey(a) != ListenerKey(b)
    ensures On(On(s, ev, a).value, ev, b).value.listeners[ev]
      == [Slot(ListenerKey(a), Persistent(a)), Slot(ListenerKey(b), Persistent(b))]
  {
  }

  /** Listeners added A then B are called A then B, and emit reports true. */
  lemma EmitFollowsInsertionOrder(s: Emitter, ev: EventId, a: Listener, b: Listener, args: seq<Value>)
    requires ev in s.listeners && s.listeners[ev] == []
    requires ListenerKey(a) != ListenerKey(b)
    ensures var s2 := On(On(s, ev, a).value, ev, b).value;
      Emit(s2, ev, args) == Ok(Emission(true, [Call(a, args), Call(b, args)], s2))
  {
    OnTwiceStoresInOrder(s, ev, a, b);
    var s2 := On(On(s, ev, a).value, ev, b).value;
    var stored := s2.listeners[ev];
    assert WellFormed(stored) && stored[0].entry.Persistent? && stored[1].entry.Persistent?;
    PersistentEmitKeepsRegistry(s2, ev, args);
    var e := Emit(s2, ev, args).value;
    assert e.calls == [Call(a, args), Call(b, args)];
  }

  /**
   * A listener registered with `once` is called by the next emission, once,
   * and is gone from the set afterwards.
   */
  lemma OnceCalledOnNextEmit(s: Emitter, ev: EventId, l: Listener, args: seq<Value>)
    requires Valid(s)
    requires ev in s.listeners
    requires !HasKey(s.listeners[ev], ListenerKey(l))
    ensures var s1 := Once(s, ev, l).value;
      var e1 := Emit(s1, ev, args).value;
      var n := |s.listeners[ev]|;
      && e1.fired
      && |e1.calls| == n + 1
      && e1.calls[n] == Call(l, args)
      && (forall i :: 0 <= i < n ==> e1.calls[i].listener != l)
      && !HasKey(e1.after.listeners[ev], ListenerKey(l))
  {
  }

  /**
   * Emitting `ev` once per argument list, in order: every call made, and the
   * registry after the last emission.
   */
  function EmitSeries(s: Emitter, ev: EventId, argLists: seq<seq<Value>>): (r: (seq<Call>, Emitter))
    requires ev in s.listeners
    ensures r.1.listeners.Keys == s.listeners.Keys
    ensures Valid(s) ==> Valid(r.1)
    ensures argLists == [] ==> r == ([], s)
    decreases |argLists|
  {
    if argLists == [] then ([], s)
    else
      var e := Emit(s, ev, argLists[0]).value;
      var (rest, after) := EmitSeries(e.after, ev, argLists[1..]);
      (e.calls + rest, after)
  }

  /** No call in `calls` goes to `l`. */
  predicate NeverCalls(calls: seq<Call>, l: Listener)
  {
    forall i :: 0 <= i < |calls| ==> calls[i].listener != l
  }

  /**
   * A listener whose key a valid set does not hold is called by no emission,
   * however many follow: an emission only ever drops slots.
   */
  lemma {:induction false} AbsentListenerNeverCalled(s: Emitter, ev: EventId, l: Listener, argLists: seq<seq<Value>>)
    requires Valid(s) && ev in s.listeners
    requires !HasKey(s.listeners[ev], ListenerKey(l))
    ensures NeverCalls(EmitSeries(s, ev, argLists).0, l)
    decreases |argLists|
  {
    if argLists != [] {
      var set0 := s.listeners[ev];
      var e := Emit(s, ev, argLists[0]).value;
      assert forall i :: 0 <= i < |e.calls| ==> e.calls[i].listener != l by {
        forall i | 0 <= i < |e.calls|
          ensures e.calls[i].listener != l
        {
          assert set0[i].key == ListenerKey(set0[i].entry.listener);
        }
      }
      var after := e.after.listeners[ev];
      assert !HasKey(after, ListenerKey(l)) by {
        PersistentOnlyMembers(set0);
        forall i | 0 <= i < |after|
          ensures after[i].key != ListenerKey(l)
        {
          assert after[i] in set0;
        }
      }
      AbsentListenerNeverCalled(e.after, ev, l, argLists[1..]);
      var rest := EmitSeries(e.after, ev, argLists[1..]).0;
      var calls := EmitSeries(s, ev, argLists).0;
      assert calls == e.calls + rest;
      forall i | 0 <= i < |calls|
        ensures calls[i].listener != l
      {
        if i >= |e.calls| {
          assert calls[i] == rest[i - |e.calls|];
        }
      }
    }
  }

  /**
   * Once a one-shot listener has run, no later emission calls it, whatever
   * number of emissions follow.
   */
  lemma OnceNotCalledAgain(s: Emitter, ev: EventId, l: Listener, args: seq<Value>, later: seq<seq<Value>>)
    requires Valid(s)
    requires ev in s.listeners
    requires !HasKey(s.listeners[ev], ListenerKey(l))
    ensures NeverCalls(EmitSeries(Emit(Once(s, ev, l).value, ev, args).value.after, ev, later).0, l)
  {
    OnceCalledOnNextEmit(s, ev, l, args);
    var e1 := Emit(Once(s, ev, l).value, ev, args).value;
    AbsentListenerNeverCalled(e1.after, ev, l, later);
  }

  /**
   * Declare "tick", register one one-shot listener, emit three times: the
   * listener is called once, and after the first emission the event has no
   * listeners.
   */
  lemma TickScenario(l: Listener)
    ensures var tick := StringEvent("tick");
      var s1 := Once(CreateEvent(Fresh, tick), tick, l).value;
      var e1 := Emit(s1, tick, []).value;
      var e2 := Emit(e1.after, tick, []).value;
      var e3 := Emit(e2.after, tick, []).value;
      && e1.calls == [Call(l, [])]
      && GetListenerCount(e1.after, tick) == Ok(0)
      && e2.calls == [] && !e2.fired
      && e3.calls == [] && !e3.fired
  {
  }
}
