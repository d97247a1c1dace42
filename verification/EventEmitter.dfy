/** The listener store of an EventEmitter and its deferred emission. */
module EventEmitters {
  import opened Options
  import opened Pools

  /** The name of an event, other than those that every object inherits. */
  type EventName = string

  const NEW_LISTENER: EventName := "newListener"
  const REMOVE_LISTENER: EventName := "removeListener"
  const ERROR: EventName := "error"

  /** A function with its identity; `once` registers a wrapper whose `.listener` is the original. */
  datatype Listener = Function(id: nat) | OnceWrapper(id: nat, event: EventName, original: Listener)

  datatype Arg = NameArg(name: EventName) | ListenerArg(listener: Listener) | DataArg(value: int)

  datatype Call = Call(listener: Listener, args: seq<Arg>)

  /** What the event loop's task queue holds: listener calls, and tasks of other origin. */
  datatype Task = ListenerTask(call: Call) | OtherTask(id: nat)

  /** `emit` returns whether there are listeners; an unhandled "error" is thrown. */
  datatype Emitted = Emitted(hadListeners: bool) | Thrown(args: seq<Arg>)

  // ---------------------------------------------------------------------------
  // The abstract store: every event with listeners has their list
  // ---------------------------------------------------------------------------

  type Table = map<EventName, seq<Listener>>

  function Listeners(t: Table, event: EventName): seq<Listener> {
    if event in t then t[event] else []
  }

  function Add(t: Table, event: EventName, l: Listener, prepend: bool): Table {
    t[event := if prepend then [l] + Listeners(t, event) else Listeners(t, event) + [l]]
  }

  /** Removal goes by identity or by the `.listener` of a wrapper. */
  predicate Matches(h: Listener, l: Listener) {
    h == l || (h.OnceWrapper? && h.original == l)
  }

  function RemoveFirst(ls: seq<Listener>, l: Listener): seq<Listener>
    decreases |ls|
  {
    if ls == [] then [] else if Matches(ls[0], l) then ls[1..] else [ls[0]] + RemoveFirst(ls[1..], l)
  }

  ghost predicate HasMatch(ls: seq<Listener>, l: Listener) {
    exists i :: 0 <= i < |ls| && Matches(ls[i], l)
  }

  /** No event is left with an empty list. */
  function SetListeners(t: Table, event: EventName, ls: seq<Listener>): Table {
    if ls == [] then t - {event} else t[event := ls]
  }

  ghost predicate NoEmptyList(t: Table) {
    forall e :: e in t ==> t[e] != []
  }

  function Remove(t: Table, event: EventName, l: Listener): Table {
    if event in t then SetListeners(t, event, RemoveFirst(t[event], l)) else t
  }

  /** One call of each listener, in their order. */
  function Calls(ls: seq<Listener>, args: seq<Arg>): seq<Call> {
    seq(|ls|, i requires 0 <= i < |ls| => Call(ls[i], args))
  }

  function Tasks(calls: seq<Call>): seq<Task> {
    seq(|calls|, i requires 0 <= i < |calls| => ListenerTask(calls[i]))
  }

  lemma TasksAppend(a: seq<Call>, b: seq<Call>)
    ensures Tasks(a + b) == Tasks(a) + Tasks(b)
  {
  }

  lemma CallsStep(ls: seq<Listener>, args: seq<Arg>, i: nat)
    requires i < |ls|
    ensures Tasks(Calls(ls[..i + 1], args)) == Tasks(Calls(ls[..i], args)) + [ListenerTask(Call(ls[i], args))]
  {
  }

  /** The notifications that the first `n` listeners of an event are removed. */
  function NoticesOf(t: Table, event: EventName, ls: seq<Listener>, n: nat): seq<Call>
    requires n <= |ls|
  {
    if n == 0 then []
    else
      NoticesOf(t, event, ls, n - 1) +
      Calls(Listeners(t, REMOVE_LISTENER), [NameArg(event), ListenerArg(ls[n - 1])])
  }

  function AllNoticesOf(t: Table, event: EventName): seq<Call> {
    NoticesOf(t, event, Listeners(t, event), |Listeners(t, event)|)
  }

  /** The notifications of `removeAllListeners` for the first `n` of the events in `names`. */
  function RemovalNotices(t: Table, names: seq<EventName>, n: nat): seq<Call>
    requires n <= |names|
  {
    if n == 0 then [] else RemovalNotices(t, names, n - 1) + AllNoticesOf(t, names[n - 1])
  }

  lemma {:induction false} RemoveFirstAt(ls: seq<Listener>, l: Listener, i: nat)
    requires i <= |ls| && (i < |ls| ==> Matches(ls[i], l))
    requires forall j :: 0 <= j < i ==> !Matches(ls[j], l)
    ensures RemoveFirst(ls, l) == if i < |ls| then ls[..i] + ls[i + 1..] else ls
    decreases |ls|
  {
    if ls == [] || i == 0 {
    } else {
      var rest := ls[1..];
      RemoveFirstAt(rest, l, i - 1);
      assert ls == [ls[0]] + rest && ls[..i] == [ls[0]] + rest[..i - 1];
      if i < |ls| {
        assert ls[i + 1..] == rest[i..];
      }
    }
  }

  /** Registering in front and then removing restores the store. */
  lemma RemoveUndoesPrepend(t: Table, event: EventName, l: Listener)
    requires NoEmptyList(t)
    ensures Remove(Add(t, event, l, true), event, l) == t
  {
    assert ([l] + Listeners(t, event))[1..] == Listeners(t, event);
  }

  /** From the first listener that matches on, there is nothing but `l` itself. */
  predicate OnlyFromMatch(ls: seq<Listener>, l: Listener)
    decreases |ls|
  {
    ls == [] || (if Matches(ls[0], l) then forall i :: 0 <= i < |ls| ==> ls[i] == l else OnlyFromMatch(ls[1..], l))
  }

  /**
   * After registering at the end, removing takes an earlier match in its stead, if there is one. The store is
   * restored exactly if from the first match on there is nothing but the listener itself.
   */
  lemma RemoveAfterAppend(t: Table, event: EventName, l: Listener)
    requires NoEmptyList(t)
    ensures var ls := Listeners(t, event);
      && Remove(Add(t, event, l, false), event, l) ==
         (if HasMatch(ls, l) then t[event := RemoveFirst(ls, l) + [l]] else t)
      && (Remove(Add(t, event, l, false), event, l) == t <==> OnlyFromMatch(ls, l))
  {
    var ls := Listeners(t, event);
    RemoveFirstOfAppend(ls, l);
    MovedToTheEnd(ls, l);
    if HasMatch(ls, l) {
      assert t[event := RemoveFirst(ls, l) + [l]][event] == RemoveFirst(ls, l) + [l];
      assert t[event := ls] == t;
    }
  }

  /** Moving the first match to the end, as `l`, changes nothing exactly if it was followed by nothing but `l`. */
  lemma {:induction false} MovedToTheEnd(ls: seq<Listener>, l: Listener)
    ensures HasMatch(ls, l) ==> (RemoveFirst(ls, l) + [l] == ls <==> OnlyFromMatch(ls, l))
    ensures !HasMatch(ls, l) ==> OnlyFromMatch(ls, l)
    decreases |ls|
  {
    if ls == [] {
    } else if Matches(ls[0], l) {
      AllAlike(ls, l);
    } else {
      HasMatchOfRest(ls, l);
      MovedToTheEnd(ls[1..], l);
      var rest := RemoveFirst(ls[1..], l) + [l];
      assert RemoveFirst(ls, l) + [l] == [ls[0]] + rest;
      assert ls == [ls[0]] + ls[1..] && ([ls[0]] + rest)[1..] == rest;
    }
  }

  lemma {:induction false} AllAlike(ls: seq<Listener>, l: Listener)
    requires ls != []
    ensures ls[1..] + [l] == ls <==> forall i :: 0 <= i < |ls| ==> ls[i] == l
    decreases |ls|
  {
    if |ls| == 1 {
      assert ls[1..] + [l] == [l] && ls == [ls[0]];
    } else {
      var rest := ls[1..];
      AllAlike(rest, l);
      assert (ls[1..] + [l])[0] == ls[1] && (ls[1..] + [l])[1..] == rest[1..] + [l];
      assert ls == [ls[0]] + rest;
      assert (forall i :: 0 <= i < |ls| ==> ls[i] == l) <==> ls[0] == l && forall i :: 0 <= i < |rest| ==> rest[i] == l;
    }
  }

  lemma HasMatchOfRest(ls: seq<Listener>, l: Listener)
    requires ls != [] && !Matches(ls[0], l)
    ensures HasMatch(ls, l) <==> HasMatch(ls[1..], l)
  {
    if HasMatch(ls[1..], l) {
      var i :| 0 <= i < |ls[1..]| && Matches(ls[1..][i], l);
      assert Matches(ls[i + 1], l);
    }
    if HasMatch(ls, l) {
      var i :| 0 <= i < |ls| && Matches(ls[i], l);
      assert Matches(ls[1..][i - 1], l);
    }
  }

  lemma {:induction false} NoMatchNoRemoval(ls: seq<Listener>, l: Listener)
    requires !HasMatch(ls, l)
    ensures RemoveFirst(ls, l) == ls
    decreases |ls|
  {
    if ls == [] {
    } else {
      assert !Matches(ls[0], l);
      HasMatchOfRest(ls, l);
      NoMatchNoRemoval(ls[1..], l);
    }
  }

  lemma {:induction false} RemoveFirstShrinks(ls: seq<Listener>, l: Listener, x: Listener)
    ensures multiset(RemoveFirst(ls, l))[x] <= multiset(ls)[x]
    ensures forall y :: y in RemoveFirst(ls, l) ==> y in ls
    decreases |ls|
  {
    if ls == [] {
    } else {
      assert ls == [ls[0]] + ls[1..];
      RemoveFirstShrinks(ls[1..], l, x);
    }
  }

  lemma {:induction false} RemoveFirstIsShorter(ls: seq<Listener>, l: Listener)
    requires HasMatch(ls, l)
    ensures |RemoveFirst(ls, l)| == |ls| - 1
    decreases |ls|
  {
    if Matches(ls[0], l) {
    } else {
      HasMatchOfRest(ls, l);
      RemoveFirstIsShorter(ls[1..], l);
    }
  }

  /** Removing by a function that only one listener matches takes that listener out. */
  lemma {:induction false} RemoveFirstHits(ls: seq<Listener>, l: Listener, x: Listener)
    requires Matches(x, l) && multiset(ls)[x] <= 1
    requires forall y :: y in ls && Matches(y, l) ==> y == x
    ensures x !in RemoveFirst(ls, l)
    decreases |ls|
  {
    if ls == [] {
    } else {
      assert ls == [ls[0]] + ls[1..];
      if !Matches(ls[0], l) {
        RemoveFirstHits(ls[1..], l, x);
      }
    }
  }

  /** Registering a listener again and removing it moves it behind another one. */
  lemma AppendCanReorder(event: EventName, l: Listener, m: Listener)
    requires !Matches(m, l) && l != m
    ensures Remove(Add(map[event := [l, m]], event, l, false), event, l) == map[event := [m, l]] != map[event := [l, m]]
  {
    var t: Table := map[event := [l, m]];
    assert Add(t, event, l, false)[event] == [l, m, l];
    assert [l, m, l][1..] == [m, l];
    assert t[event] != [m, l];
  }

  lemma {:induction false} RemoveFirstOfAppend(ls: seq<Listener>, l: Listener)
    ensures RemoveFirst(ls + [l], l) == if HasMatch(ls, l) then RemoveFirst(ls, l) + [l] else ls
    decreases |ls|
  {
    if ls == [] {
      assert [] + [l] == [l] && [l][1..] == [];
    } else {
      assert (ls + [l])[1..] == ls[1..] + [l];
      RemoveFirstOfAppend(ls[1..], l);
      if !Matches(ls[0], l) {
        HasMatchOfRest(ls, l);
      }
    }
  }

  // ---------------------------------------------------------------------------
  // The compact store
  // ---------------------------------------------------------------------------

  /** A single listener is stored as itself, several as an array. */
  datatype Slot = One(listener: Listener) | Many(listeners: seq<Listener>)

  function SlotListeners(s: Slot): seq<Listener> {
    match s case One(l) => [l] case Many(ls) => ls
  }

  /** The abstract store that the slots stand for. */
  ghost function TableOf(events: map<EventName, Slot>): Table {
    map e | e in events :: SlotListeners(events[e])
  }

  lemma TableOfUpdate(events: map<EventName, Slot>, event: EventName, slot: Slot)
    ensures TableOf(events[event := slot]) == TableOf(events)[event := SlotListeners(slot)]
  {
  }

  lemma TableOfRemoval(events: map<EventName, Slot>, event: EventName)
    ensures TableOf(events - {event}) == TableOf(events) - {event}
  {
  }

  /** The slot that `AddListener` builds from the one that is there. */
  lemma AddedSlot(before: seq<Listener>, slot: Slot, l: Listener, prepend: bool)
    requires |before| == 0 ==> slot == One(l)
    requires |before| == 1 ==> slot == if prepend then Many([l, before[0]]) else Many([before[0], l])
    requires |before| > 1 ==> slot == if prepend then Many([l] + before) else Many(before + [l])
    ensures SlotListeners(slot) == if prepend then [l] + before else before + [l]
  {
    if |before| == 1 {
      assert before == [before[0]];
    }
  }

  class EventEmitter {
    var events: map<EventName, Slot>
    var eventsCount: int
    const queue: TaskQueue<Task>

    ghost predicate Valid()
      reads this
    {
      && eventsCount == |events|
      && forall e :: e in events && events[e].Many? ==> |events[e].listeners| >= 2
    }

    ghost function View(): Table
      reads this
    {
      TableOf(events)
    }

    /** `_eventsCount` is the number of events with listeners. */
    lemma CountIsEvents()
      requires Valid()
      ensures eventsCount == |View()| && NoEmptyList(View())
    {
      assert View().Keys == events.Keys;
    }

    constructor (queue: TaskQueue<Task>)
      ensures Valid() && View() == map[] && this.queue == queue
    {
      this.queue := queue;
      events, eventsCount := map[], 0;
    }

    method EnqueueListenerCall(l: Listener, args: seq<Arg>)
      modifies queue
      ensures queue.queue == old(queue.queue) + [ListenerTask(Call(l, args))]
    {
      queue.Enqueue(ListenerTask(Call(l, args)));
    }

    /** Queues a call of each listener that is registered now. */
    method Emit(event: EventName, args: seq<Arg>) returns (r: Emitted)
      requires Valid()
      modifies queue
      ensures queue.queue == old(queue.queue) + Tasks(Calls(Listeners(View(), event), args))
      ensures r == if event in View() then Emitted(true)
                   else if event == ERROR then Thrown(args) else Emitted(false)
    {
      if event !in events {
        if event == ERROR {
          return Thrown(args);
        }
        return Emitted(false);
      }
      assert Listeners(View(), event) == SlotListeners(events[event]);
      match events[event] {
        case One(l) =>
          EnqueueListenerCall(l, args);
        case Many(snapshot) =>
          for i := 0 to |snapshot|
            invariant queue.queue == old(queue.queue) + Tasks(Calls(snapshot[..i], args))
          {
            CallsStep(snapshot, args, i);
            EnqueueListenerCall(snapshot[i], args);
          }
          assert snapshot[..|snapshot|] == snapshot;
      }
      return Emitted(true);
    }

    /** The array with a listener put in front. */
    static method Prepended(ls: seq<Listener>, l: Listener) returns (r: seq<Listener>)
      ensures r == [l] + ls
    {
      r := [l];
      for i := 0 to |ls|
        invariant r == [l] + ls[..i]
      {
        r := r + [ls[i]];
      }
    }

    /** Registers a listener, after a "newListener" has been emitted. */
    method AddListener(event: EventName, l: Listener, prepend: bool)
      requires Valid()
      modifies this, queue
      ensures Valid()
      ensures View() == Add(old(View()), event, l, prepend)
      ensures queue.queue == old(queue.queue) +
                             Tasks(Calls(Listeners(old(View()), NEW_LISTENER), [NameArg(event), ListenerArg(l)]))
    {
      var _ := Emit(NEW_LISTENER, [NameArg(event), ListenerArg(l)]);
      var slot := One(l);
      if event !in events {
        eventsCount := eventsCount + 1;
      } else {
        match events[event] {
          case One(existing) =>
            slot := if prepend then Many([l, existing]) else Many([existing, l]);
          case Many(ls) =>
            if prepend {
              var all := Prepended(ls, l);
              slot := Many(all);
            } else {
              slot := Many(ls + [l]);
            }
        }
      }
      AddedSlot(Listeners(View(), event), slot, l, prepend);
      TableOfUpdate(events, event, slot);
      events := events[event := slot];
    }

    /** The position of the first listener that matches, or the length. */
    static method FindMatch(ls: seq<Listener>, l: Listener) returns (i: nat)
      ensures i <= |ls| && (i < |ls| ==> Matches(ls[i], l))
      ensures forall j :: 0 <= j < i ==> !Matches(ls[j], l)
    {
      i := 0;
      while i < |ls| && !Matches(ls[i], l)
        invariant i <= |ls|
        invariant forall j :: 0 <= j < i ==> !Matches(ls[j], l)
      {
        i := i + 1;
      }
    }

    /** The array without its element at `i`. */
    static method Without(ls: seq<Listener>, i: nat) returns (r: seq<Listener>)
      requires i < |ls|
      ensures r == ls[..i] + ls[i + 1..]
    {
      r := [];
      for j := 0 to |ls|
        invariant r == if j <= i then ls[..j] else ls[..i] + ls[i + 1..j]
      {
        if j != i {
          r := r + [ls[j]];
        }
      }
    }

    /** Takes the first matching listener out of the store. */
    method TakeOut(event: EventName, l: Listener) returns (removed: bool)
      requires Valid()
      modifies this
      ensures Valid()
      ensures View() == Remove(old(View()), event, l)
      ensures removed <==> HasMatch(Listeners(old(View()), event), l)
    {
      if event !in events {
        return false;
      }
      var ls := SlotListeners(events[event]);
      var i := FindMatch(ls, l);
      RemoveFirstAt(ls, l, i);
      if i == |ls| {
        assert View()[event := ls] == View();
        return false;
      }
      var rest := Without(ls, i);
      if rest == [] {
        TableOfRemoval(events, event);
        events := events - {event};
        if eventsCount > 0 {
          eventsCount := eventsCount - 1;
        }
      } else {
        var slot := if |rest| == 1 then One(rest[0]) else Many(rest);
        assert |rest| == 1 ==> rest == [rest[0]];
        TableOfUpdate(events, event, slot);
        events := events[event := slot];
      }
      return true;
    }

    /** Unregisters a listener and then emits "removeListener". */
    method RemoveListener(event: EventName, l: Listener) returns (removed: bool)
      requires Valid()
      modifies this, queue
      ensures Valid()
      ensures View() == Remove(old(View()), event, l)
      ensures removed <==> HasMatch(Listeners(old(View()), event), l)
      ensures queue.queue == old(queue.queue) +
                             if removed
                             then Tasks(Calls(Listeners(View(), REMOVE_LISTENER), [NameArg(event), ListenerArg(l)]))
                             else []
    {
      removed := TakeOut(event, l);
      if removed {
        var _ := Emit(REMOVE_LISTENER, [NameArg(event), ListenerArg(l)]);
      }
    }

    /** Emits "removeListener" for every listener of an event that is about to be dropped. */
    method EmitRemovals(event: EventName)
      requires Valid() && event in events
      modifies queue
      ensures queue.queue == old(queue.queue) + Tasks(AllNoticesOf(View(), event))
    {
      var ls := SlotListeners(events[event]);
      for i := 0 to |ls|
        invariant queue.queue == old(queue.queue) + Tasks(NoticesOf(View(), event, ls, i))
      {
        TasksAppend(NoticesOf(View(), event, ls, i),
                    Calls(Listeners(View(), REMOVE_LISTENER), [NameArg(event), ListenerArg(ls[i])]));
        var _ := Emit(REMOVE_LISTENER, [NameArg(event), ListenerArg(ls[i])]);
      }
    }

    method RemoveAllListenersOf(event: EventName)
      requires Valid()
      modifies this, queue
      ensures Valid()
      ensures View() == old(View()) - {event}
      ensures queue.queue == old(queue.queue) + Tasks(AllNoticesOf(old(View()), event))
    {
      if event !in events {
        assert View() - {event} == View();
        assert queue.queue + Tasks([]) == queue.queue;
        return;
      }
      EmitRemovals(event);
      TableOfRemoval(events, event);
      events := events - {event};
      if eventsCount > 0 {
        eventsCount := eventsCount - 1;
      }
    }

    method EmitAllRemovals(names: seq<EventName>)
      requires Valid()
      requires forall i :: 0 <= i < |names| ==> names[i] in events
      modifies queue
      ensures queue.queue == old(queue.queue) + Tasks(RemovalNotices(View(), names, |names|))
    {
      hide AllNoticesOf, TableOf, Listeners;
      for i := 0 to |names|
        invariant queue.queue == old(queue.queue) + Tasks(RemovalNotices(View(), names, i))
      {
        TasksAppend(RemovalNotices(View(), names, i), AllNoticesOf(View(), names[i]));
        EmitRemovals(names[i]);
      }
    }

    /** `names` are the events in the order in which V8 enumerates them. */
    method RemoveAllListeners(names: seq<EventName>)
      requires Valid()
      requires forall i :: 0 <= i < |names| ==> names[i] in events
      requires forall e :: e in events ==> e in names
      modifies this, queue
      ensures Valid()
      ensures View() == map[]
      ensures queue.queue == old(queue.queue) + Tasks(RemovalNotices(old(View()), names, |names|))
    {
      EmitAllRemovals(names);
      events := map[];
      eventsCount := 0;
    }

    /**
     * The event loop takes the next task and runs it. A wrapper unregisters itself before it calls its
     * original listener; the calls that a listener makes are calls of the other methods that follow. An
     * exception of the listener is reported and goes no further.
     */
    method RunNext() returns (task: Option<Task>)
      requires Valid()
      modifies this, queue
      ensures Valid()
      ensures old(queue.queue) == [] ==> task == None && unchanged(this) && queue.queue == []
      ensures old(queue.queue) != [] ==>
                && task == Some(old(queue.queue)[0])
                && View() == TableAfterTask(old(View()), task.value)
                && queue.queue == old(queue.queue)[1..] + Tasks(NoticesOfTask(old(View()), task.value))
    {
      task := queue.Dequeue();
      if task.Some? && task.value.ListenerTask? && task.value.call.listener.OnceWrapper? {
        var wrapper := task.value.call.listener;
        var _ := RemoveListener(wrapper.event, wrapper);
      }
    }
  }

  /** What running a task does to the store by itself. */
  function TableAfterTask(t: Table, task: Task): Table {
    if task.ListenerTask? && task.call.listener.OnceWrapper? then
      Remove(t, task.call.listener.event, task.call.listener)
    else t
  }

  ghost function NoticesOfTask(t: Table, task: Task): seq<Call> {
    if task.ListenerTask? && task.call.listener.OnceWrapper? then
      NoticesOfRemoval(t, task.call.listener.event, task.call.listener)
    else []
  }

  /** The calls that removing a listener queues. */
  ghost function NoticesOfRemoval(t: Table, event: EventName, l: Listener): seq<Call> {
    if HasMatch(Listeners(t, event), l) then
      Calls(Listeners(Remove(t, event, l), REMOVE_LISTENER), [NameArg(event), ListenerArg(l)])
    else []
  }
}
