/** How often a listener registered with `once` is called. */
module OnceListeners {
  import opened EventEmitters
  import opened Emission

  /** How many calls of the listener are queued. */
  function Queued(queue: seq<Task>, l: Listener): nat {
    CallsOf(CallsIn(queue), l)
  }

  /** Some emission found the listener registered while a call of it was still queued. */
  ghost predicate FoundWhileQueued(emitted: seq<Emit>, l: Listener) {
    exists k :: 0 <= k < |emitted| && l in emitted[k].listeners && Queued(emitted[k].queue, l) > 0
  }

  /** The wrapper is registered at most once, for its own event, and is not wrapped itself. */
  ghost predicate RegisteredOnce(t: Table, w: Listener)
    requires w.OnceWrapper?
  {
    forall e :: e in t ==>
      && multiset(t[e])[w] <= (if e == w.event then 1 else 0)
      && forall l :: l in t[e] && Matches(l, w) ==> l == w
  }

  ghost predicate Gone(t: Table, w: Listener) {
    forall e :: e in t ==> w !in t[e]
  }

  /** It has been called or will be at most once, exactly if no emission found it while a call was queued. */
  ghost predicate Counted(s: State, w: Listener) {
    CallsOf(s.invoked, w) + Queued(s.queue, w) <= 1 <==> !FoundWhileQueued(s.emitted, w)
  }

  /** A wrapper that has been called is not registered any more. */
  ghost predicate Inv(s: State, w: Listener)
    requires w.OnceWrapper?
  {
    && RegisteredOnce(s.table, w)
    && (CallsOf(s.invoked, w) > 0 ==> Gone(s.table, w))
    && Counted(s, w)
  }

  // ---------------------------------------------------------------------------
  // Emissions
  // ---------------------------------------------------------------------------

  lemma FoundWhileQueuedSnoc(emitted: seq<Emit>, e: Emit, l: Listener)
    ensures FoundWhileQueued(emitted + [e], l) <==>
            FoundWhileQueued(emitted, l) || (l in e.listeners && Queued(e.queue, l) > 0)
  {
    var all := emitted + [e];
    if FoundWhileQueued(emitted, l) {
      var k :| 0 <= k < |emitted| && l in emitted[k].listeners && Queued(emitted[k].queue, l) > 0;
      assert all[k] == emitted[k];
    }
    assert all[|emitted|] == e;
  }

  lemma QueuedByEmit(s: State, event: EventName, args: seq<Arg>, w: Listener)
    ensures Queued(DoEmit(s, event, args).queue, w) ==
            Queued(s.queue, w) + multiset(Listeners(s.table, event))[w]
  {
    var calls := Calls(Listeners(s.table, event), args);
    CallsInAppend(s.queue, Tasks(calls));
    CallsInTasks(calls);
    CallsOfAppend(CallsIn(s.queue), calls, w);
    CallsOfCalls(Listeners(s.table, event), args, w);
  }

  lemma EmitKeepsInv(s: State, event: EventName, args: seq<Arg>, w: Listener)
    requires w.OnceWrapper? && Inv(s, w)
    ensures Inv(DoEmit(s, event, args), w)
  {
    var ls := Listeners(s.table, event);
    QueuedByEmit(s, event, args, w);
    FoundWhileQueuedSnoc(s.emitted, Emit(event, args, ls, s.queue), w);
    assert multiset(ls)[w] <= 1;
    assert w in ls <==> multiset(ls)[w] == 1;
  }

  lemma {:induction false} NoticesKeepInv(s: State, event: EventName, ls: seq<Listener>, n: nat, w: Listener)
    requires w.OnceWrapper? && Inv(s, w) && n <= |ls|
    ensures Inv(DoNotices(s, event, ls, n), w)
  {
    if n == 0 {
    } else {
      NoticesKeepInv(s, event, ls, n - 1, w);
      EmitKeepsInv(DoNotices(s, event, ls, n - 1), REMOVE_LISTENER, [NameArg(event), ListenerArg(ls[n - 1])], w);
    }
  }

  lemma {:induction false} NoticesOfAllKeepInv(s: State, names: seq<EventName>, n: nat, w: Listener)
    requires w.OnceWrapper? && Inv(s, w) && n <= |names|
    ensures Inv(DoNoticesOfAll(s, names, n), w)
  {
    if n == 0 {
    } else {
      var ls := Listeners(s.table, names[n - 1]);
      NoticesOfAllKeepInv(s, names, n - 1, w);
      NoticesKeepInv(DoNoticesOfAll(s, names, n - 1), names[n - 1], ls, |ls|, w);
    }
  }

  // ---------------------------------------------------------------------------
  // Registering and removing
  // ---------------------------------------------------------------------------

  lemma RemoveKeepsRegisteredOnce(t: Table, event: EventName, l: Listener, w: Listener)
    requires w.OnceWrapper? && RegisteredOnce(t, w)
    ensures RegisteredOnce(Remove(t, event, l), w)
    ensures Gone(t, w) ==> Gone(Remove(t, event, l), w)
  {
    if event in t {
      RemoveFirstShrinks(t[event], l, w);
    }
  }

  /** Removing the wrapper from its event takes it out. */
  lemma RemovedWrapperIsGone(t: Table, w: Listener)
    requires w.OnceWrapper? && RegisteredOnce(t, w)
    ensures Gone(Remove(t, w.event, w), w)
  {
    if w.event in t {
      RemoveFirstHits(t[w.event], w, w);
    }
    forall e | e in t && e != w.event ensures w !in t[e] {
      assert multiset(t[e])[w] == 0;
    }
  }

  lemma OffKeepsInv(s: State, event: EventName, l: Listener, w: Listener)
    requires w.OnceWrapper? && Inv(s, w)
    ensures Inv(DoOff(s, event, l), w)
  {
    var removed := s.(table := Remove(s.table, event, l));
    RemoveKeepsRegisteredOnce(s.table, event, l, w);
    assert Inv(removed, w);
    EmitKeepsInv(removed, REMOVE_LISTENER, [NameArg(event), ListenerArg(l)], w);
  }

  lemma AddKeepsRegisteredOnce(t: Table, event: EventName, l: Listener, prepend: bool, w: Listener)
    requires w.OnceWrapper? && RegisteredOnce(t, w) && !Matches(l, w)
    ensures RegisteredOnce(Add(t, event, l, prepend), w)
    ensures Gone(t, w) ==> Gone(Add(t, event, l, prepend), w)
  {
    var ls := Listeners(t, event);
    var all := if prepend then [l] + ls else ls + [l];
    assert multiset(all) == multiset(ls) + multiset{l};
    forall x | x in all ensures x in ls || x == l {
    }
  }

  // ---------------------------------------------------------------------------
  // Running a task
  // ---------------------------------------------------------------------------

  /** The oldest task moves from the queue to the calls made. */
  function Called(s: State): State
    requires s.queue != []
  {
    match s.queue[0]
    case OtherTask(_) => s.(queue := s.queue[1..])
    case ListenerTask(call) => s.(queue := s.queue[1..], invoked := s.invoked + [call])
  }

  lemma CalledKeepsCount(s: State, w: Listener)
    requires s.queue != []
    ensures CallsOf(Called(s).invoked, w) + Queued(Called(s).queue, w) == CallsOf(s.invoked, w) + Queued(s.queue, w)
    ensures CallsOf(Called(s).invoked, w) ==
            CallsOf(s.invoked, w) + if s.queue[0].ListenerTask? && s.queue[0].call.listener == w then 1 else 0
  {
    var rest := CallsIn(s.queue[1..]);
    match s.queue[0]
    case OtherTask(_) =>
      assert [] + rest == rest;
    case ListenerTask(call) =>
      CallsOfAppend(s.invoked, [call], w);
      CallsOfAppend([call], rest, w);
      assert CallsOf([call], w) == if call.listener == w then 1 else 0 by {
        assert [call][..0] == [];
      }
  }

  lemma RunNextKeepsInv(s: State, w: Listener)
    requires w.OnceWrapper? && Inv(s, w)
    ensures Inv(DoRunNext(s), w)
  {
    if s.queue != [] {
      CalledKeepsCount(s, w);
      var called := Called(s);
      if s.queue[0].ListenerTask? && s.queue[0].call.listener == w {
        var removed := called.(table := Remove(s.table, w.event, w));
        RemoveKeepsRegisteredOnce(s.table, w.event, w, w);
        RemovedWrapperIsGone(s.table, w);
        assert Inv(removed, w);
        EmitKeepsInv(removed, REMOVE_LISTENER, [NameArg(w.event), ListenerArg(w)], w);
        if !HasMatch(Listeners(s.table, w.event), w) {
          UnmatchedIsGone(s.table, w);
        }
      } else {
        assert Inv(called, w);
        if s.queue[0].ListenerTask? && s.queue[0].call.listener.OnceWrapper? {
          OffKeepsInv(called, s.queue[0].call.listener.event, s.queue[0].call.listener, w);
        }
      }
    }
  }

  lemma UnmatchedIsGone(t: Table, w: Listener)
    requires w.OnceWrapper? && RegisteredOnce(t, w) && !HasMatch(Listeners(t, w.event), w)
    ensures Gone(t, w)
  {
    forall e | e in t ensures w !in t[e] {
      if e == w.event {
        forall i | 0 <= i < |t[e]| ensures t[e][i] != w {
          assert !Matches(t[e][i], w);
        }
      } else {
        assert multiset(t[e])[w] == 0;
      }
    }
  }

  // ---------------------------------------------------------------------------
  // Main results
  // ---------------------------------------------------------------------------

  /** The operation registers neither the wrapper again nor a wrapper of the wrapper. */
  predicate NotAgain(op: Op, w: Listener) {
    op.On? ==> !Matches(op.listener, w)
  }

  lemma StepKeepsInv(s: State, op: Op, w: Listener)
    requires w.OnceWrapper? && Inv(s, w) && NotAgain(op, w)
    ensures Inv(Emission.Next(s, op), w)
  {
    match op
    case On(event, l, prepend) =>
      EmitKeepsInv(s, NEW_LISTENER, [NameArg(event), ListenerArg(l)], w);
      AddKeepsRegisteredOnce(s.table, event, l, prepend, w);
    case Off(event, l) => OffKeepsInv(s, event, l, w);
    case OffAll(event) =>
      NoticesKeepInv(s, event, Listeners(s.table, event), |Listeners(s.table, event)|, w);
      NoticesAgree(s, event, Listeners(s.table, event), |Listeners(s.table, event)|);
    case OffEverything(names) => NoticesOfAllKeepInv(s, names, |names|, w);
    case Fire(event, args) => EmitKeepsInv(s, event, args, w);
    case QueueOther(id) =>
      CallsInAppend(s.queue, [OtherTask(id)]);
      assert CallsIn([OtherTask(id)]) == [] by {
        assert [OtherTask(id)][1..] == [];
      }
      assert CallsIn(s.queue) + [] == CallsIn(s.queue);
    case RunNext => RunNextKeepsInv(s, w);
  }

  lemma {:induction false} RunKeepsInv(s: State, ops: seq<Op>, w: Listener)
    requires w.OnceWrapper? && Inv(s, w)
    requires forall i :: 0 <= i < |ops| ==> NotAgain(ops[i], w)
    ensures Inv(Run(s, ops), w)
    decreases |ops|
  {
    if ops == [] {
    } else {
      RunKeepsInv(s, ops[..|ops| - 1], w);
      StepKeepsInv(Run(s, ops[..|ops| - 1]), ops[|ops| - 1], w);
    }
  }

  /** Nothing knows the wrapper yet. */
  ghost predicate Unseen(s: State, w: Listener) {
    && (forall e, l :: e in s.table && l in s.table[e] ==> !Matches(l, w))
    && CallsOf(s.invoked, w) == 0 && Queued(s.queue, w) == 0
    && (forall k :: 0 <= k < |s.emitted| ==> w !in s.emitted[k].listeners)
  }

  /** What `once` registers. */
  lemma RegisteringStartsInv(s: State, w: Listener, prepend: bool)
    requires w.OnceWrapper? && Unseen(s, w)
    ensures Inv(DoOn(s, w.event, w, prepend), w)
  {
    var args := [NameArg(w.event), ListenerArg(w)];
    forall e | e in s.table ensures multiset(s.table[e])[w] == 0 {
      assert w in s.table[e] ==> Matches(w, w);
    }
    assert Inv(s, w);
    EmitKeepsInv(s, NEW_LISTENER, args, w);
    var ls := Listeners(s.table, w.event);
    var all := if prepend then [w] + ls else ls + [w];
    assert multiset(all) == multiset(ls) + multiset{w};
    forall l | l in all && Matches(l, w) ensures l == w {
    }
  }

  /**
   * A listener registered with `once` is called at most once exactly if no emission finds it registered while
   * a call of it is still queued; for its wrapper unregisters itself only when it is called.
   */
  lemma OnceListenerFiresAtMostOnce(s: State, w: Listener, prepend: bool, ops: seq<Op>)
    requires w.OnceWrapper? && Unseen(s, w)
    requires forall i :: 0 <= i < |ops| ==> NotAgain(ops[i], w)
    ensures var t := Run(DoOn(s, w.event, w, prepend), ops);
      && (CallsOf(t.invoked, w) + Queued(t.queue, w) <= 1 <==> !FoundWhileQueued(t.emitted, w))
      && (CallsIn(t.queue) == [] ==> (CallsOf(t.invoked, w) <= 1 <==> !FoundWhileQueued(t.emitted, w)))
  {
    RegisteringStartsInv(s, w, prepend);
    RunKeepsInv(DoOn(s, w.event, w, prepend), ops, w);
  }

  /** A once wrapper is called twice if its event is emitted twice before the queue is drained. */
  lemma OnceListenerCanFireTwice(event: EventName, id: nat, original: Listener)
    ensures var w := OnceWrapper(id, event, original);
      Run(EMPTY, [On(event, w, false)] + [Fire(event, [])] + [Fire(event, [])] + [RunNext] + [RunNext]).invoked ==
      [Call(w, []), Call(w, [])]
    ensures var w := OnceWrapper(id, event, original);
      FoundWhileQueued(Run(EMPTY, [On(event, w, false)] + [Fire(event, [])] + [Fire(event, [])]).emitted, w)
  {
    var w := OnceWrapper(id, event, original);
    var on, fire := On(event, w, false), Fire(event, []);
    var emitted := DoEmit(DoEmit(DoOn(EMPTY, event, w, false), event, []), event, []);
    RunOfThree(event, w);
    RegisteredAndEmittedTwice(event, w);
    SecondFindsItQueued(event, w);
    hide Run, DoEmit, DoOn, DoRunNext, FoundWhileQueued;
    RunSnoc(EMPTY, [on] + [fire] + [fire], RunNext);
    RunSnoc(EMPTY, [on] + [fire] + [fire] + [RunNext], RunNext);
    RunTwice(emitted, event, w);
  }

  lemma RunOfThree(event: EventName, w: Listener)
    ensures Run(EMPTY, [On(event, w, false)] + [Fire(event, [])] + [Fire(event, [])]) ==
            DoEmit(DoEmit(DoOn(EMPTY, event, w, false), event, []), event, [])
  {
    var on, fire := On(event, w, false), Fire(event, []);
    assert [] + [on] == [on] && Run(EMPTY, []) == EMPTY;
    hide Run, DoEmit, DoOn;
    RunSnoc(EMPTY, [], on);
    RunSnoc(EMPTY, [on], fire);
    RunSnoc(EMPTY, [on] + [fire], fire);
  }

  lemma SecondFindsItQueued(event: EventName, w: Listener)
    ensures FoundWhileQueued(DoEmit(DoEmit(DoOn(EMPTY, event, w, false), event, []), event, []).emitted, w)
  {
    var on := DoOn(EMPTY, event, w, false);
    var once := DoEmit(on, event, []);
    assert Listeners(EMPTY.table, event) + [w] == [w];
    QueuedByEmit(on, event, [], w);
    FoundWhileQueuedSnoc(once.emitted, Emit(event, [], [w], once.queue), w);
  }

  lemma RegisteredAndEmittedTwice(event: EventName, w: Listener)
    ensures var t := DoEmit(DoEmit(DoOn(EMPTY, event, w, false), event, []), event, []);
      && t.table == map[event := [w]] && t.invoked == []
      && t.queue == [ListenerTask(Call(w, [])), ListenerTask(Call(w, []))]
  {
    var on := DoOn(EMPTY, event, w, false);
    assert Listeners(EMPTY.table, event) + [w] == [w];
    assert on.queue == [] && on.table == map[event := [w]];
    assert Tasks(Calls([w], [])) == [ListenerTask(Call(w, []))];
  }

  lemma RunTwice(s: State, event: EventName, w: Listener)
    requires w.OnceWrapper? && w.event == event && s.table == map[event := [w]] && s.invoked == []
    requires s.queue == [ListenerTask(Call(w, [])), ListenerTask(Call(w, []))]
    ensures DoRunNext(DoRunNext(s)).invoked == [Call(w, []), Call(w, [])]
  {
    assert Remove(s.table, event, w) == map[];
    assert s.queue[1..] == [ListenerTask(Call(w, []))];
    var called := s.(queue := s.queue[1..], invoked := [Call(w, [])]);
    var t := DoOff(called, event, w);
    assert t.queue == called.queue;
    assert DoRunNext(s) == t;
  }
}
