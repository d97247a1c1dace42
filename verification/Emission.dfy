/** Deferred emission: what is called, and in which order, over whole runs of an emitter. */
module Emission {
  import opened EventEmitters

  /** A call of `emit`, with the listeners that were registered and the tasks that were queued at that moment. */
  datatype Emit = Emit(event: EventName, args: seq<Arg>, listeners: seq<Listener>, queue: seq<Task>)

  datatype State = State(
    table: Table,
    queue: seq<Task>,
    invoked: seq<Call>,     // history: the calls that the event loop has made
    emitted: seq<Emit>)     // history: the calls of `emit`

  /** What happens on the main thread; the calls a listener makes follow its `RunNext`. */
  datatype Op =
    | On(event: EventName, listener: Listener, prepend: bool)
    | Off(event: EventName, listener: Listener)
    | OffAll(event: EventName)
    | OffEverything(names: seq<EventName>)    // the events in the order in which V8 enumerates them
    | Fire(event: EventName, args: seq<Arg>)
    | QueueOther(id: nat)
    | RunNext

  // ---------------------------------------------------------------------------
  // Steps
  // ---------------------------------------------------------------------------

  function DoEmit(s: State, event: EventName, args: seq<Arg>): State {
    var ls := Listeners(s.table, event);
    s.(queue := s.queue + Tasks(Calls(ls, args)), emitted := s.emitted + [Emit(event, args, ls, s.queue)])
  }

  function DoOn(s: State, event: EventName, l: Listener, prepend: bool): State {
    var s' := DoEmit(s, NEW_LISTENER, [NameArg(event), ListenerArg(l)]);
    s'.(table := Add(s.table, event, l, prepend))
  }

  ghost function DoOff(s: State, event: EventName, l: Listener): State {
    if HasMatch(Listeners(s.table, event), l) then
      DoEmit(s.(table := Remove(s.table, event, l)), REMOVE_LISTENER, [NameArg(event), ListenerArg(l)])
    else s
  }

  /** `removeAllListeners(event)`: one "removeListener" for each of the first `n` listeners. */
  function DoNotices(s: State, event: EventName, ls: seq<Listener>, n: nat): State
    requires n <= |ls|
  {
    if n == 0 then s
    else DoEmit(DoNotices(s, event, ls, n - 1), REMOVE_LISTENER, [NameArg(event), ListenerArg(ls[n - 1])])
  }

  function DoOffAll(s: State, event: EventName): State {
    var ls := Listeners(s.table, event);
    DoNotices(s, event, ls, |ls|).(table := s.table - {event})
  }

  function DoNoticesOfAll(s: State, names: seq<EventName>, n: nat): State
    requires n <= |names|
  {
    if n == 0 then s
    else
      var ls := Listeners(s.table, names[n - 1]);
      DoNotices(DoNoticesOfAll(s, names, n - 1), names[n - 1], ls, |ls|)
  }

  function DoOffEverything(s: State, names: seq<EventName>): State {
    DoNoticesOfAll(s, names, |names|).(table := map[])
  }

  ghost function DoRunNext(s: State): State {
    if s.queue == [] then s
    else
      var popped := s.(queue := s.queue[1..]);
      match s.queue[0]
      case OtherTask(_) => popped
      case ListenerTask(call) =>
        var called := popped.(invoked := s.invoked + [call]);
        if call.listener.OnceWrapper? then DoOff(called, call.listener.event, call.listener) else called
  }

  ghost function Next(s: State, op: Op): State {
    match op
    case On(event, l, prepend) => DoOn(s, event, l, prepend)
    case Off(event, l) => DoOff(s, event, l)
    case OffAll(event) => DoOffAll(s, event)
    case OffEverything(names) => DoOffEverything(s, names)
    case Fire(event, args) => DoEmit(s, event, args)
    case QueueOther(id) => s.(queue := s.queue + [OtherTask(id)])
    case RunNext => DoRunNext(s)
  }

  ghost function Run(s: State, ops: seq<Op>): State
    decreases |ops|
  {
    if ops == [] then s else Next(Run(s, ops[..|ops| - 1]), ops[|ops| - 1])
  }

  // ---------------------------------------------------------------------------
  // The methods of the emitter take these steps
  // ---------------------------------------------------------------------------

  /** The notices that the emitter queues when it drops an event are those of `DoOffAll`. */
  lemma {:induction false} NoticesAgree(s: State, event: EventName, ls: seq<Listener>, n: nat)
    requires n <= |ls|
    ensures DoNotices(s, event, ls, n).table == s.table
    ensures DoNotices(s, event, ls, n).queue == s.queue + Tasks(NoticesOf(s.table, event, ls, n))
    ensures DoNotices(s, event, ls, n).invoked == s.invoked
  {
    if n == 0 {
      assert s.queue + Tasks([]) == s.queue;
    } else {
      NoticesAgree(s, event, ls, n - 1);
      TasksAppend(NoticesOf(s.table, event, ls, n - 1),
                  Calls(Listeners(s.table, REMOVE_LISTENER), [NameArg(event), ListenerArg(ls[n - 1])]));
    }
  }

  lemma {:induction false} NoticesOfAllAgree(s: State, names: seq<EventName>, n: nat)
    requires n <= |names|
    ensures DoNoticesOfAll(s, names, n).table == s.table
    ensures DoNoticesOfAll(s, names, n).queue == s.queue + Tasks(RemovalNotices(s.table, names, n))
    ensures DoNoticesOfAll(s, names, n).invoked == s.invoked
  {
    if n == 0 {
      assert s.queue + Tasks([]) == s.queue;
    } else {
      var event := names[n - 1];
      NoticesOfAllAgree(s, names, n - 1);
      NoticesAgree(DoNoticesOfAll(s, names, n - 1), event, Listeners(s.table, event), |Listeners(s.table, event)|);
      TasksAppend(RemovalNotices(s.table, names, n - 1), AllNoticesOf(s.table, event));
    }
  }

  /** Running a task changes store and queue as `EventEmitter.RunNext` says. */
  lemma RunNextAgrees(s: State)
    requires s.queue != [] && NoEmptyList(s.table)
    ensures Next(s, RunNext).table == TableAfterTask(s.table, s.queue[0])
    ensures Next(s, RunNext).queue == s.queue[1..] + Tasks(NoticesOfTask(s.table, s.queue[0]))
  {
    assert s.queue[1..] + Tasks([]) == s.queue[1..];
    if s.queue[0].ListenerTask? && s.queue[0].call.listener.OnceWrapper? {
      var w := s.queue[0].call.listener;
      if !HasMatch(Listeners(s.table, w.event), w) {
        NoMatchNoRemoval(Listeners(s.table, w.event), w);
        assert w.event in s.table ==> s.table[w.event := s.table[w.event]] == s.table;
      }
    }
  }

  // ---------------------------------------------------------------------------
  // Deferred emission
  // ---------------------------------------------------------------------------

  /** The listener calls among the queued tasks. */
  function CallsIn(queue: seq<Task>): seq<Call>
    decreases |queue|
  {
    if queue == [] then [] else CallIn(queue[0]) + CallsIn(queue[1..])
  }

  function CallIn(t: Task): seq<Call> {
    match t case ListenerTask(c) => [c] case OtherTask(_) => []
  }

  /** The calls that the emissions ask for: emission by emission, listener by listener. */
  function Due(emitted: seq<Emit>): seq<Call>
    decreases |emitted|
  {
    if emitted == [] then []
    else
      var last := emitted[|emitted| - 1];
      Due(emitted[..|emitted| - 1]) + Calls(last.listeners, last.args)
  }

  lemma {:induction false} CallsInAppend(a: seq<Task>, b: seq<Task>)
    ensures CallsIn(a + b) == CallsIn(a) + CallsIn(b)
    decreases |a|
  {
    if a == [] {
      assert a + b == b;
    } else {
      assert (a + b)[1..] == a[1..] + b;
      CallsInAppend(a[1..], b);
      assert CallIn(a[0]) + (CallsIn(a[1..]) + CallsIn(b)) == (CallIn(a[0]) + CallsIn(a[1..])) + CallsIn(b);
    }
  }

  lemma {:induction false} CallsInTasks(calls: seq<Call>)
    ensures CallsIn(Tasks(calls)) == calls
    decreases |calls|
  {
    if calls == [] {
    } else {
      assert Tasks(calls)[1..] == Tasks(calls[1..]);
      CallsInTasks(calls[1..]);
    }
  }

  /** What has been called and what is still queued is, in this order, what was asked for. */
  ghost predicate InOrder(s: State) {
    s.invoked + CallsIn(s.queue) == Due(s.emitted)
  }

  lemma DueOfAppend(emitted: seq<Emit>, e: Emit)
    ensures Due(emitted + [e]) == Due(emitted) + Calls(e.listeners, e.args)
  {
    assert (emitted + [e])[..|emitted|] == emitted;
  }

  lemma EmitKeepsInOrder(s: State, event: EventName, args: seq<Arg>)
    requires InOrder(s)
    ensures InOrder(DoEmit(s, event, args))
  {
    var calls := Calls(Listeners(s.table, event), args);
    CallsInAppend(s.queue, Tasks(calls));
    CallsInTasks(calls);
    DueOfAppend(s.emitted, Emit(event, args, Listeners(s.table, event), s.queue));
    hide Due, CallsIn, Calls, Tasks;
    assert s.invoked + (CallsIn(s.queue) + calls) == (s.invoked + CallsIn(s.queue)) + calls;
  }

  lemma OffKeepsInOrder(s: State, event: EventName, l: Listener)
    requires InOrder(s)
    ensures InOrder(DoOff(s, event, l))
  {
    EmitKeepsInOrder(s.(table := Remove(s.table, event, l)), REMOVE_LISTENER, [NameArg(event), ListenerArg(l)]);
  }

  lemma {:induction false} NoticesKeepInOrder(s: State, event: EventName, ls: seq<Listener>, n: nat)
    requires InOrder(s) && n <= |ls|
    ensures InOrder(DoNotices(s, event, ls, n))
  {
    hide InOrder, DoEmit;
    if n == 0 {
    } else {
      var front := DoNotices(s, event, ls, n - 1);
      NoticesKeepInOrder(s, event, ls, n - 1);
      assert InOrder(front);
      EmitKeepsInOrder(front, REMOVE_LISTENER, [NameArg(event), ListenerArg(ls[n - 1])]);
    }
  }

  lemma {:induction false} NoticesOfAllKeepInOrder(s: State, names: seq<EventName>, n: nat)
    requires InOrder(s) && n <= |names|
    ensures InOrder(DoNoticesOfAll(s, names, n))
  {
    hide InOrder, DoNotices;
    if n == 0 {
    } else {
      var ls := Listeners(s.table, names[n - 1]);
      NoticesOfAllKeepInOrder(s, names, n - 1);
      NoticesKeepInOrder(DoNoticesOfAll(s, names, n - 1), names[n - 1], ls, |ls|);
    }
  }

  lemma RunNextKeepsInOrder(s: State)
    requires InOrder(s)
    ensures InOrder(DoRunNext(s))
  {
    if s.queue != [] {
      match s.queue[0]
      case OtherTask(_) =>
        assert [] + CallsIn(s.queue[1..]) == CallsIn(s.queue[1..]);
      case ListenerTask(call) =>
        var called := s.(queue := s.queue[1..], invoked := s.invoked + [call]);
        assert s.invoked + ([call] + CallsIn(s.queue[1..])) == called.invoked + CallsIn(called.queue);
        if call.listener.OnceWrapper? {
          OffKeepsInOrder(called, call.listener.event, call.listener);
        }
    }
  }

  lemma StepKeepsInOrder(s: State, op: Op)
    requires InOrder(s)
    ensures InOrder(Next(s, op))
  {
    match op
    case On(event, l, prepend) => EmitKeepsInOrder(s, NEW_LISTENER, [NameArg(event), ListenerArg(l)]);
    case Off(event, l) => OffKeepsInOrder(s, event, l);
    case OffAll(event) =>
      NoticesKeepInOrder(s, event, Listeners(s.table, event), |Listeners(s.table, event)|);
    case OffEverything(names) => NoticesOfAllKeepInOrder(s, names, |names|);
    case Fire(event, args) => EmitKeepsInOrder(s, event, args);
    case QueueOther(id) =>
      CallsInAppend(s.queue, [OtherTask(id)]);
      assert CallsIn([OtherTask(id)]) == [] by {
        assert [OtherTask(id)][1..] == [];
      }
    case RunNext => RunNextKeepsInOrder(s);
  }

  /**
   * Deferred emission: over every run, the calls made and the calls still queued are, in this order, one
   * call for each listener of each emission, taken at the moment of the emission and in emission order.
   */
  lemma {:induction false} EmissionIsDeferred(s: State, ops: seq<Op>)
    requires InOrder(s)
    ensures var t := Run(s, ops); t.invoked + CallsIn(t.queue) == Due(t.emitted)
    decreases |ops|
  {
    if ops == [] {
    } else {
      EmissionIsDeferred(s, ops[..|ops| - 1]);
      StepKeepsInOrder(Run(s, ops[..|ops| - 1]), ops[|ops| - 1]);
    }
  }

  /** Nothing that happens later changes what an emission has asked for. */
  lemma {:induction false} EmissionsAreFinal(s: State, ops: seq<Op>)
    requires InOrder(s)
    ensures s.emitted <= Run(s, ops).emitted && s.invoked <= Run(s, ops).invoked
    ensures Due(s.emitted) <= Due(Run(s, ops).emitted)
    decreases |ops|
  {
    if ops == [] {
    } else {
      var front := Run(s, ops[..|ops| - 1]);
      EmissionsAreFinal(s, ops[..|ops| - 1]);
      StepGrows(front, ops[|ops| - 1]);
      DueGrows(front.emitted, Run(s, ops).emitted);
    }
  }

  lemma {:induction false} NoticesGrow(s: State, event: EventName, ls: seq<Listener>, n: nat)
    requires n <= |ls|
    ensures s.emitted <= DoNotices(s, event, ls, n).emitted && DoNotices(s, event, ls, n).invoked == s.invoked
  {
    if n == 0 {
    } else {
      NoticesGrow(s, event, ls, n - 1);
    }
  }

  lemma {:induction false} NoticesOfAllGrow(s: State, names: seq<EventName>, n: nat)
    requires n <= |names|
    ensures s.emitted <= DoNoticesOfAll(s, names, n).emitted && DoNoticesOfAll(s, names, n).invoked == s.invoked
  {
    if n == 0 {
    } else {
      var ls := Listeners(s.table, names[n - 1]);
      NoticesOfAllGrow(s, names, n - 1);
      NoticesGrow(DoNoticesOfAll(s, names, n - 1), names[n - 1], ls, |ls|);
    }
  }

  lemma StepGrows(s: State, op: Op)
    ensures s.emitted <= Next(s, op).emitted && s.invoked <= Next(s, op).invoked
  {
    if op.OffAll? {
      NoticesGrow(s, op.event, Listeners(s.table, op.event), |Listeners(s.table, op.event)|);
    } else if op.OffEverything? {
      NoticesOfAllGrow(s, op.names, |op.names|);
    }
  }

  lemma {:induction false} DueGrows(a: seq<Emit>, b: seq<Emit>)
    requires a <= b
    ensures Due(a) <= Due(b)
    decreases |b|
  {
    if a == b {
    } else {
      DueGrows(a, b[..|b| - 1]);
    }
  }

  /** How many calls the first `k` emissions ask for. */
  function Offset(emitted: seq<Emit>, k: nat): nat
    requires k <= |emitted|
  {
    if k == 0 then 0 else Offset(emitted, k - 1) + |emitted[k - 1].listeners|
  }

  lemma {:induction false} OffsetOfFront(a: seq<Emit>, b: seq<Emit>, k: nat)
    requires a <= b && k <= |a|
    ensures Offset(b, k) == Offset(a, k)
  {
    if k == 0 {
    } else {
      OffsetOfFront(a, b, k - 1);
    }
  }

  lemma {:induction false} DueByPosition(emitted: seq<Emit>, k: nat, i: nat)
    requires k < |emitted| && i < |emitted[k].listeners|
    ensures |Due(emitted)| == Offset(emitted, |emitted|)
    ensures Offset(emitted, k) + i < |Due(emitted)|
    ensures Due(emitted)[Offset(emitted, k) + i] == Call(emitted[k].listeners[i], emitted[k].args)
    decreases |emitted|
  {
    var n := |emitted| - 1;
    var front := emitted[..n];
    DueLength(front);
    OffsetOfFront(front, emitted, n);
    OffsetOfFront(front, emitted, if k < n then k else n);
    if k == n {
    } else {
      DueByPosition(front, k, i);
    }
  }

  lemma {:induction false} DueLength(emitted: seq<Emit>)
    ensures |Due(emitted)| == Offset(emitted, |emitted|)
    decreases |emitted|
  {
    if emitted == [] {
    } else {
      var n := |emitted| - 1;
      DueLength(emitted[..n]);
      OffsetOfFront(emitted[..n], emitted, n);
    }
  }

  /**
   * By position: over every run, call number `i` of emission number `k` is the call of the i-th listener that
   * was registered at that moment, with the arguments of the emission, after all calls of earlier emissions.
   */
  lemma CallsKeepTheirPlace(s: State, ops: seq<Op>, k: nat, i: nat)
    requires InOrder(s)
    requires var t := Run(s, ops); k < |t.emitted| && i < |t.emitted[k].listeners|
    ensures var t := Run(s, ops);
      var calls := t.invoked + CallsIn(t.queue);
      && |calls| == Offset(t.emitted, |t.emitted|) && Offset(t.emitted, k) + i < |calls|
      && calls[Offset(t.emitted, k) + i] == Call(t.emitted[k].listeners[i], t.emitted[k].args)
  {
    EmissionIsDeferred(s, ops);
    DueByPosition(Run(s, ops).emitted, k, i);
  }

  // ---------------------------------------------------------------------------
  // How often a listener is called
  // ---------------------------------------------------------------------------

  function CallsOf(calls: seq<Call>, l: Listener): nat
    decreases |calls|
  {
    if calls == [] then 0
    else CallsOf(calls[..|calls| - 1], l) + if calls[|calls| - 1].listener == l then 1 else 0
  }

  /** How often the emissions found the listener registered. */
  function Found(emitted: seq<Emit>, l: Listener): nat
    decreases |emitted|
  {
    if emitted == [] then 0
    else Found(emitted[..|emitted| - 1], l) + multiset(emitted[|emitted| - 1].listeners)[l]
  }

  lemma {:induction false} CallsOfAppend(a: seq<Call>, b: seq<Call>, l: Listener)
    ensures CallsOf(a + b, l) == CallsOf(a, l) + CallsOf(b, l)
    decreases |b|
  {
    if b == [] {
      assert a + b == a;
    } else {
      assert (a + b)[..|a + b| - 1] == a + b[..|b| - 1];
      CallsOfAppend(a, b[..|b| - 1], l);
    }
  }

  lemma {:induction false} CallsOfCalls(ls: seq<Listener>, args: seq<Arg>, l: Listener)
    ensures CallsOf(Calls(ls, args), l) == multiset(ls)[l]
    decreases |ls|
  {
    if ls == [] {
    } else {
      var front, last := ls[..|ls| - 1], ls[|ls| - 1];
      assert ls == front + [last];
      assert Calls(ls, args)[..|ls| - 1] == Calls(front, args);
      CallsOfCalls(front, args, l);
    }
  }

  lemma {:induction false} CallsOfDue(emitted: seq<Emit>, l: Listener)
    ensures CallsOf(Due(emitted), l) == Found(emitted, l)
    decreases |emitted|
  {
    if emitted == [] {
    } else {
      var front, last := emitted[..|emitted| - 1], emitted[|emitted| - 1];
      CallsOfDue(front, l);
      CallsOfAppend(Due(front), Calls(last.listeners, last.args), l);
      CallsOfCalls(last.listeners, last.args, l);
    }
  }

  /** A listener, a once wrapper too, is called once for each emission that found it registered. */
  lemma CalledOncePerEmission(s: State, ops: seq<Op>, l: Listener)
    requires InOrder(s)
    ensures var t := Run(s, ops);
      CallsOf(t.invoked, l) + CallsOf(CallsIn(t.queue), l) == Found(t.emitted, l)
  {
    var t := Run(s, ops);
    EmissionIsDeferred(s, ops);
    CallsOfAppend(t.invoked, CallsIn(t.queue), l);
    CallsOfDue(t.emitted, l);
  }

  const EMPTY := State(map[], [], [], [])

  lemma RunSnoc(s: State, ops: seq<Op>, op: Op)
    ensures Run(s, ops + [op]) == Next(Run(s, ops), op)
  {
    assert (ops + [op])[..|ops|] == ops;
  }
}
