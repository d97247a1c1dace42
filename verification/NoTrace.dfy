/** What a call of `events.once` leaves behind, compared with a run in which it was not made. */
module NoTrace {
  import opened EventEmitters
  import opened Emission
  import opened OncePromise

  // ---------------------------------------------------------------------------
  // The run without the call
  // ---------------------------------------------------------------------------

  /** A listener call that is only there because of `events.once`: of its own listeners, or a notice about them. */
  predicate CausedCall(call: Call, p: Wait) {
    p.Ours(call.listener) || AboutOurs(call.args, p)
  }

  predicate Caused(task: Task, p: Wait) {
    task.ListenerTask? && CausedCall(task.call, p)
  }

  /** The others' tasks. */
  function Others(queue: seq<Task>, p: Wait): seq<Task>
    decreases |queue|
  {
    if queue == [] then []
    else if Caused(queue[0], p) then Others(queue[1..], p)
    else [queue[0]] + Others(queue[1..], p)
  }

  function OthersCalls(calls: seq<Call>, p: Wait): seq<Call>
    decreases |calls|
  {
    if calls == [] then []
    else if CausedCall(calls[0], p) then OthersCalls(calls[1..], p)
    else [calls[0]] + OthersCalls(calls[1..], p)
  }

  ghost predicate RunsCaused(em: State, op: Op, p: Wait) {
    op.RunNext? && em.queue != [] && Caused(em.queue[0], p)
  }

  /** What everybody else does: the operations, less the running of tasks that the call has caused. */
  ghost function OthersOps(s: WaitState, ops: seq<Op>, p: Wait): seq<Op>
    decreases |ops|
  {
    if ops == [] then []
    else
      var front, last := ops[..|ops| - 1], ops[|ops| - 1];
      if RunsCaused(OncePromise.Run(s, front, p).em, last, p) then OthersOps(s, front, p)
      else OthersOps(s, front, p) + [last]
  }

  /** The emitter with `events.once` called, after all operations. */
  ghost function With(em: State, ops: seq<Op>, p: Wait): WaitState {
    OncePromise.Run(Begin(em, p), ops, p)
  }

  /** The emitter on which everybody else does the same, but `events.once` is not called. */
  ghost function Alone(em: State, ops: seq<Op>, p: Wait): State {
    Emission.Run(em, OthersOps(Begin(em, p), ops, p))
  }

  /** The two differ only by what belongs to the call. */
  ghost predicate Alike(em: State, a: State, p: Wait) {
    && EraseAll(em.table, p) == a.table
    && Others(em.queue, p) == a.queue
    && OthersCalls(em.invoked, p) == a.invoked
  }

  /**
   * The guard of the branch in which a trace is left: the next task is a notice about one of the call's own
   * listeners, and what it calls is the wrapper of somebody else's `once` listener, which unregisters itself.
   */
  ghost predicate LosesWrapper(em: State, op: Op, p: Wait) {
    && RunsCaused(em, op, p)
    && var l := em.queue[0].call.listener;
       !p.Ours(l) && l.OnceWrapper? && HasMatch(Listeners(em.table, l.event), l)
  }

  // ---------------------------------------------------------------------------
  // Filtering
  // ---------------------------------------------------------------------------

  lemma {:induction false} OthersAppend(a: seq<Task>, b: seq<Task>, p: Wait)
    ensures Others(a + b, p) == Others(a, p) + Others(b, p)
    decreases |a|
  {
    if a == [] {
      assert a + b == b;
    } else {
      assert (a + b)[1..] == a[1..] + b;
      OthersAppend(a[1..], b, p);
    }
  }

  lemma {:induction false} OthersCallsAppend(a: seq<Call>, b: seq<Call>, p: Wait)
    ensures OthersCalls(a + b, p) == OthersCalls(a, p) + OthersCalls(b, p)
    decreases |a|
  {
    if a == [] {
      assert a + b == b;
    } else {
      assert (a + b)[1..] == a[1..] + b;
      OthersCallsAppend(a[1..], b, p);
    }
  }

  /** Of a foreign emission, the calls of the others are those it would have asked for without ours. */
  lemma {:induction false} OthersOfEmission(ls: seq<Listener>, args: seq<Arg>, p: Wait)
    requires !AboutOurs(args, p)
    ensures Others(Tasks(Calls(ls, args)), p) == Tasks(Calls(Erase(ls, p), args))
    decreases |ls|
  {
    if ls == [] {
    } else {
      OthersOfEmission(ls[1..], args, p);
      assert Tasks(Calls(ls, args))[1..] == Tasks(Calls(ls[1..], args));
      if !p.Ours(ls[0]) {
        var rest := Erase(ls[1..], p);
        assert Tasks(Calls([ls[0]] + rest, args)) == [ListenerTask(Call(ls[0], args))] + Tasks(Calls(rest, args));
      }
    }
  }

  /** Of a notice about ours, no call is the others'. */
  lemma {:induction false} OthersOfNotice(ls: seq<Listener>, args: seq<Arg>, p: Wait)
    requires AboutOurs(args, p)
    ensures Others(Tasks(Calls(ls, args)), p) == []
    decreases |ls|
  {
    if ls == [] {
    } else {
      OthersOfNotice(ls[1..], args, p);
      assert Tasks(Calls(ls, args))[1..] == Tasks(Calls(ls[1..], args));
    }
  }

  // ---------------------------------------------------------------------------
  // Each step of the two runs
  // ---------------------------------------------------------------------------

  lemma EmitAlike(em: State, a: State, event: EventName, args: seq<Arg>, p: Wait)
    requires Alike(em, a, p) && !AboutOurs(args, p)
    ensures Alike(DoEmit(em, event, args), DoEmit(a, event, args), p)
  {
    ListenersOfErased(em.table, event, p);
    OthersAppend(em.queue, Tasks(Calls(Listeners(em.table, event), args)), p);
    OthersOfEmission(Listeners(em.table, event), args, p);
  }

  lemma NoticeAlike(em: State, a: State, event: EventName, args: seq<Arg>, p: Wait)
    requires Alike(em, a, p) && AboutOurs(args, p)
    ensures Alike(DoEmit(em, event, args), a, p)
  {
    OthersAppend(em.queue, Tasks(Calls(Listeners(em.table, event), args)), p);
    OthersOfNotice(Listeners(em.table, event), args, p);
    assert a.queue + [] == a.queue;
  }

  lemma NoticeArgs(event: EventName, l: Listener, p: Wait)
    ensures AboutOurs([NameArg(event), ListenerArg(l)], p) <==> p.Reserved(l)
  {
    var args := [NameArg(event), ListenerArg(l)];
    assert args[1].ListenerArg? && args[1].listener == l;
  }

  lemma {:induction false} HasMatchOfErased(ls: seq<Listener>, l: Listener, p: Wait)
    requires p.Foreign(l)
    ensures HasMatch(Erase(ls, p), l) <==> HasMatch(ls, l)
    decreases |ls|
  {
    if ls == [] {
    } else {
      HasMatchOfErased(ls[1..], l, p);
      if Matches(ls[0], l) {
        assert !p.Ours(ls[0]) && Erase(ls, p)[0] == ls[0];
      } else {
        HasMatchOfRest(ls, l);
        if !p.Ours(ls[0]) {
          assert Erase(ls, p)[1..] == Erase(ls[1..], p);
          HasMatchOfRest(Erase(ls, p), l);
        }
      }
    }
  }

  lemma OffAlike(em: State, a: State, event: EventName, l: Listener, p: Wait)
    requires Alike(em, a, p) && p.Foreign(l)
    ensures Alike(DoOff(em, event, l), DoOff(a, event, l), p)
  {
    ListenersOfErased(em.table, event, p);
    HasMatchOfErased(Listeners(em.table, event), l, p);
    EraseOfForeignRemove(em.table, event, l, p);
    NoticeArgs(event, l, p);
    if HasMatch(Listeners(em.table, event), l) {
      EmitAlike(em.(table := Remove(em.table, event, l)), a.(table := Remove(a.table, event, l)), REMOVE_LISTENER,
                [NameArg(event), ListenerArg(l)], p);
    }
  }

  lemma OffOursAlike(em: State, a: State, event: EventName, l: Listener, p: Wait)
    requires Alike(em, a, p) && p.Reserved(l) && StoreInv(em.table, p)
    ensures Alike(DoOff(em, event, l), a, p)
  {
    EraseOfOurRemove(em.table, event, l, p);
    NoticeArgs(event, l, p);
    if HasMatch(Listeners(em.table, event), l) {
      NoticeAlike(em.(table := Remove(em.table, event, l)), a, REMOVE_LISTENER, [NameArg(event), ListenerArg(l)], p);
    }
  }

  lemma OnAlike(em: State, a: State, event: EventName, l: Listener, prepend: bool, p: Wait)
    requires Alike(em, a, p) && p.Foreign(l)
    ensures Alike(DoOn(em, event, l, prepend), DoOn(a, event, l, prepend), p)
  {
    NoticeArgs(event, l, p);
    EmitAlike(em, a, NEW_LISTENER, [NameArg(event), ListenerArg(l)], p);
    EraseOfForeignAdd(em.table, event, l, prepend, p);
  }

  lemma OnOursAlike(em: State, a: State, event: EventName, l: Listener, p: Wait)
    requires Alike(em, a, p) && p.Ours(l)
    ensures Alike(DoOn(em, event, l, false), a, p)
  {
    NoticeArgs(event, l, p);
    NoticeAlike(em, a, NEW_LISTENER, [NameArg(event), ListenerArg(l)], p);
    EraseOfOurAdd(em.table, event, l, p);
  }

  /** The first `n` notices do not depend on the listeners after them. */
  lemma {:induction false} NoticesOfFront(s: State, event: EventName, ls: seq<Listener>, more: seq<Listener>, n: nat)
    requires n <= |ls| && ls <= more
    ensures DoNotices(s, event, more, n) == DoNotices(s, event, ls, n)
  {
    if n == 0 {
    } else {
      NoticesOfFront(s, event, ls, more, n - 1);
    }
  }

  lemma {:induction false} NoticesAlike(em: State, a: State, event: EventName, ls: seq<Listener>, n: nat, p: Wait)
    requires Alike(em, a, p) && OursOrForeign(ls, p) && n <= |ls|
    ensures var others := Erase(ls[..n], p);
      Alike(DoNotices(em, event, ls, n), DoNotices(a, event, others, |others|), p)
  {
    if n == 0 {
    } else {
      var front, l := Erase(ls[..n - 1], p), ls[n - 1];
      NoticesAlike(em, a, event, ls, n - 1, p);
      assert ls[..n] == ls[..n - 1] + [l];
      EraseAppend(ls[..n - 1], [l], p);
      EraseOne(l, p);
      NoticeArgs(event, l, p);
      var em', a' := DoNotices(em, event, ls, n - 1), DoNotices(a, event, front, |front|);
      if p.Ours(l) {
        assert Erase(ls[..n], p) == front;
        NoticeAlike(em', a', REMOVE_LISTENER, [NameArg(event), ListenerArg(l)], p);
      } else {
        assert p.Foreign(l);
        NoticesOfFront(a, event, front, front + [l], |front|);
        EmitAlike(em', a', REMOVE_LISTENER, [NameArg(event), ListenerArg(l)], p);
      }
    }
  }

  lemma AllNoticesAlike(em: State, a: State, event: EventName, p: Wait)
    requires Alike(em, a, p) && StoreInv(em.table, p)
    ensures var ls, others := Listeners(em.table, event), Listeners(a.table, event);
      Alike(DoNotices(em, event, ls, |ls|), DoNotices(a, event, others, |others|), p)
  {
    var ls := Listeners(em.table, event);
    ListenersOfErased(em.table, event, p);
    assert OursOrForeign(ls, p);
    NoticesAlike(em, a, event, ls, |ls|, p);
    assert ls[..|ls|] == ls;
  }

  lemma {:induction false} NoticesOfAllAlike(em: State, a: State, names: seq<EventName>, n: nat, p: Wait)
    requires Alike(em, a, p) && StoreInv(em.table, p) && n <= |names|
    ensures Alike(DoNoticesOfAll(em, names, n), DoNoticesOfAll(a, names, n), p)
    ensures DoNoticesOfAll(em, names, n).table == em.table && DoNoticesOfAll(a, names, n).table == a.table
  {
    if n == 0 {
    } else {
      NoticesOfAllAlike(em, a, names, n - 1, p);
      var em', a' := DoNoticesOfAll(em, names, n - 1), DoNoticesOfAll(a, names, n - 1);
      AllNoticesAlike(em', a', names[n - 1], p);
      NoticesAgree(em', names[n - 1], Listeners(em.table, names[n - 1]), |Listeners(em.table, names[n - 1])|);
      NoticesAgree(a', names[n - 1], Listeners(a.table, names[n - 1]), |Listeners(a.table, names[n - 1])|);
    }
  }

  lemma DropAlike(em: State, a: State, event: EventName, p: Wait)
    requires Alike(em, a, p) && StoreInv(em.table, p)
    ensures Alike(DoOffAll(em, event), DoOffAll(a, event), p)
  {
    AllNoticesAlike(em, a, event, p);
    EraseOfDrop(em.table, event, p);
    NoticesAgree(em, event, Listeners(em.table, event), |Listeners(em.table, event)|);
    NoticesAgree(a, event, Listeners(a.table, event), |Listeners(a.table, event)|);
    hide EraseAll, StoreInv, Others, OthersCalls, DoNotices, Tasks, NoticesOf;
  }

  lemma EraseOfDrop(t: Table, event: EventName, p: Wait)
    ensures EraseAll(t - {event}, p) == EraseAll(t, p) - {event}
  {
  }

  /** The task at the head is somebody else's. */
  lemma RunOthersAlike(em: State, a: State, p: Wait)
    requires Alike(em, a, p) && QueueInv(em.queue, p) && em.queue != [] && !Caused(em.queue[0], p)
    ensures Alike(DoRunNext(em), DoRunNext(a), p)
  {
    var rest := Others(em.queue[1..], p);
    assert a.queue == [em.queue[0]] + rest && a.queue[1..] == rest;
    match em.queue[0]
    case OtherTask(_) =>
    case ListenerTask(call) =>
      OthersCallsAppend(em.invoked, [call], p);
      assert OthersCalls([call], p) == [call] by {
        assert [call][1..] == [];
      }
      if call.listener.OnceWrapper? {
        OffAlike(em.(queue := em.queue[1..], invoked := em.invoked + [call]),
                 a.(queue := a.queue[1..], invoked := a.invoked + [call]), call.listener.event, call.listener, p);
      }
  }

  /** A task that the call has caused leaves the queue. */
  lemma PopCausedAlike(em: State, a: State, p: Wait)
    requires Alike(em, a, p) && em.queue != [] && Caused(em.queue[0], p)
    ensures Alike(em.(queue := em.queue[1..], invoked := em.invoked + [em.queue[0].call]), a, p)
  {
    var call := em.queue[0].call;
    OthersCallsAppend(em.invoked, [call], p);
    assert OthersCalls([call], p) == [] by {
      assert [call][1..] == [];
    }
    assert a.invoked + [] == a.invoked;
  }

  lemma RunOursAlike(s: WaitState, a: State, p: Wait)
    requires p.Valid() && OncePromise.Inv(s, p) && Alike(s.em, a, p) && RunsOurs(s.em, RunNext, p)
    ensures Alike(OncePromise.Next(s, RunNext, p).em, a, p)
  {
    var w := s.em.queue[0].call.listener;
    var called := s.em.(queue := s.em.queue[1..], invoked := s.em.invoked + [s.em.queue[0].call]);
    PopCausedAlike(s.em, a, p);
    OffEffect(called, w.event, w, p);
    OffOursAlike(called, a, w.event, w, p);
    var em := Emission.Next(s.em, RunNext);
    assert em == DoOff(called, w.event, w);
    OffEffect(em, p.name, p.Resolve(), p);
    OffOursAlike(em, a, p.name, p.Resolve(), p);
    OffOursAlike(DoOff(em, p.name, p.Resolve()), a, ERROR, p.Reject(), p);
  }

  lemma RunCausedAlike(s: WaitState, a: State, p: Wait)
    requires p.Valid() && OncePromise.Inv(s, p) && Alike(s.em, a, p) && RunsCaused(s.em, RunNext, p)
    requires !LosesWrapper(s.em, RunNext, p)
    ensures Alike(OncePromise.Next(s, RunNext, p).em, a, p)
  {
    if RunsOurs(s.em, RunNext, p) {
      RunOursAlike(s, a, p);
    } else {
      PopCausedAlike(s.em, a, p);
    }
  }

  lemma OthersStepAlike(em: State, a: State, op: Op, p: Wait)
    requires Alike(em, a, p) && StoreInv(em.table, p) && QueueInv(em.queue, p)
    requires ForeignOp(op, p) && !RunsCaused(em, op, p)
    ensures Alike(Emission.Next(em, op), Emission.Next(a, op), p)
  {
    match op
    case On(event, l, prepend) => OnAlike(em, a, event, l, prepend, p);
    case Off(event, l) => OffAlike(em, a, event, l, p);
    case OffAll(event) => DropAlike(em, a, event, p);
    case OffEverything(names) => NoticesOfAllAlike(em, a, names, |names|, p);
    case Fire(event, args) => EmitAlike(em, a, event, args, p);
    case QueueOther(id) =>
      OthersAppend(em.queue, [OtherTask(id)], p);
      assert Others([OtherTask(id)], p) == [OtherTask(id)] by {
        assert [OtherTask(id)][1..] == [];
      }
    case RunNext =>
      if em.queue != [] {
        RunOthersAlike(em, a, p);
      }
  }

  lemma StepAlike(s: WaitState, a: State, op: Op, p: Wait)
    requires p.Valid() && OncePromise.Inv(s, p) && Alike(s.em, a, p) && ForeignOp(op, p) && !LosesWrapper(s.em, op, p)
    ensures Alike(OncePromise.Next(s, op, p).em,
                  if RunsCaused(s.em, op, p) then a else Emission.Next(a, op), p)
  {
    if RunsCaused(s.em, op, p) {
      RunCausedAlike(s, a, p);
    } else {
      OthersStepAlike(s.em, a, op, p);
    }
  }

  // ---------------------------------------------------------------------------
  // Whole runs
  // ---------------------------------------------------------------------------

  lemma {:induction false} OthersOfForeign(queue: seq<Task>, p: Wait)
    requires forall i :: 0 <= i < |queue| ==> !Caused(queue[i], p)
    ensures Others(queue, p) == queue
    decreases |queue|
  {
    if queue == [] {
    } else {
      OthersOfForeign(queue[1..], p);
    }
  }

  lemma {:induction false} OthersCallsOfForeign(calls: seq<Call>, p: Wait)
    requires forall i :: 0 <= i < |calls| ==> !CausedCall(calls[i], p)
    ensures OthersCalls(calls, p) == calls
    decreases |calls|
  {
    if calls == [] {
    } else {
      OthersCallsOfForeign(calls[1..], p);
    }
  }

  lemma BeginAlike(em: State, p: Wait)
    requires p.Valid() && Untouched(em, p)
    ensures Alike(Begin(em, p).em, em, p)
  {
    UntouchedStore(em, p);
    OthersOfForeign(em.queue, p);
    OthersCallsOfForeign(em.invoked, p);
    OnOursAlike(em, em, p.name, p.ResolveWrapper(), p);
    if p.name != ERROR {
      OnOursAlike(DoOn(em, p.name, p.ResolveWrapper(), false), em, ERROR, p.RejectWrapper(), p);
    }
  }

  /** No step of the run loses the wrapper of somebody else's `once` listener to a notice about ours. */
  ghost predicate NeverLoses(em: State, ops: seq<Op>, p: Wait) {
    forall n :: 0 <= n < |ops| ==> !LosesWrapper(With(em, ops[..n], p).em, ops[n], p)
  }

  lemma WithSnoc(em: State, ops: seq<Op>, n: nat, p: Wait)
    requires n < |ops|
    ensures With(em, ops[..n + 1], p) == OncePromise.Next(With(em, ops[..n], p), ops[n], p)
    ensures Alone(em, ops[..n + 1], p) ==
            if RunsCaused(With(em, ops[..n], p).em, ops[n], p) then Alone(em, ops[..n], p)
            else Emission.Next(Alone(em, ops[..n], p), ops[n])
  {
    assert ops[..n + 1][..n] == ops[..n];
    if !RunsCaused(With(em, ops[..n], p).em, ops[n], p) {
      Emission.RunSnoc(em, OthersOps(Begin(em, p), ops[..n], p), ops[n]);
    }
  }

  lemma ForeignFront(ops: seq<Op>, n: nat, p: Wait)
    requires ForeignOps(ops, p) && n <= |ops|
    ensures ForeignOps(ops[..n], p)
  {
  }

  lemma {:induction false} RunAlike(em: State, ops: seq<Op>, n: nat, p: Wait)
    requires p.Valid() && Untouched(em, p) && ForeignOps(ops, p) && n <= |ops|
    requires forall m :: 0 <= m < n ==> !LosesWrapper(With(em, ops[..m], p).em, ops[m], p)
    ensures Alike(With(em, ops[..n], p).em, Alone(em, ops[..n], p), p)
  {
    if n == 0 {
      BeginAlike(em, p);
    } else {
      RunAlike(em, ops, n - 1, p);
      ForeignFront(ops, n - 1, p);
      OncePromise.RunKeepsInv(em, ops[..n - 1], p);
      WithSnoc(em, ops, n - 1, p);
      StepAlike(With(em, ops[..n - 1], p), Alone(em, ops[..n - 1], p), ops[n - 1], p);
    }
  }

  /** Losing a wrapper shows in the store at once. */
  lemma LossShows(em: State, ops: seq<Op>, n: nat, p: Wait)
    requires p.Valid() && Untouched(em, p) && ForeignOps(ops, p) && n < |ops|
    requires LosesWrapper(With(em, ops[..n], p).em, ops[n], p)
    requires EraseAll(With(em, ops[..n], p).em.table, p) == Alone(em, ops[..n], p).table
    ensures EraseAll(With(em, ops[..n + 1], p).em.table, p) != Alone(em, ops[..n + 1], p).table
  {
    var s := With(em, ops[..n], p);
    var l := s.em.queue[0].call.listener;
    WithSnoc(em, ops, n, p);
    ForeignFront(ops, n, p);
    OncePromise.RunKeepsInv(em, ops[..n], p);
    assert p.Foreign(l);
    var called := s.em.(queue := s.em.queue[1..], invoked := s.em.invoked + [s.em.queue[0].call]);
    assert OncePromise.Next(s, RunNext, p).em == DoOff(called, l.event, l);
    OffEffect(called, l.event, l, p);
    EraseOfForeignRemove(s.em.table, l.event, l, p);
    ListenersOfErased(s.em.table, l.event, p);
    HasMatchOfErased(Listeners(s.em.table, l.event), l, p);
    RemovalShows(EraseAll(s.em.table, p), l.event, l);
  }

  lemma RemovalShows(t: Table, event: EventName, l: Listener)
    requires HasMatch(Listeners(t, event), l)
    ensures Remove(t, event, l) != t
  {
    RemoveFirstIsShorter(t[event], l);
  }

  /** After every prefix of the run, the others' listeners are those of the run without the call. */
  ghost predicate AgreesThroughout(em: State, ops: seq<Op>, p: Wait) {
    forall n :: 0 <= n <= |ops| ==> EraseAll(With(em, ops[..n], p).em.table, p) == Alone(em, ops[..n], p).table
  }

  /** The exact condition: the stores agree throughout the run if and only if no step loses a wrapper. */
  lemma StoresAgreeUnlessWrapperLost(em: State, ops: seq<Op>, p: Wait)
    requires p.Valid() && Untouched(em, p) && ForeignOps(ops, p)
    ensures AgreesThroughout(em, ops, p) <==> NeverLoses(em, ops, p)
  {
    if NeverLoses(em, ops, p) {
      forall n | 0 <= n <= |ops|
        ensures EraseAll(With(em, ops[..n], p).em.table, p) == Alone(em, ops[..n], p).table
      {
        RunAlike(em, ops, n, p);
      }
    }
    if AgreesThroughout(em, ops, p) {
      forall n | 0 <= n < |ops| ensures !LosesWrapper(With(em, ops[..n], p).em, ops[n], p) {
        if LosesWrapper(With(em, ops[..n], p).em, ops[n], p) {
          assert EraseAll(With(em, ops[..n], p).em.table, p) == Alone(em, ops[..n], p).table;
          LossShows(em, ops, n, p);
        }
      }
    }
  }

  /**
   * No trace: unless a wrapper is lost, once the promise has settled every event has exactly the listeners it
   * would have without the call, the tasks of the others are those that would be queued, and their listeners
   * have been called as they would have been, even if both events were queued before either was run.
   */
  lemma LeavesNoTrace(em: State, ops: seq<Op>, p: Wait)
    requires p.Valid() && Untouched(em, p) && ForeignOps(ops, p) && NeverLoses(em, ops, p)
    ensures var s, a := With(em, ops, p), Alone(em, ops, p);
      && (s.promise != Pending ==> s.em.table == a.table)
      && Others(s.em.queue, p) == a.queue
      && OthersCalls(s.em.invoked, p) == a.invoked
  {
    RunAlike(em, ops, |ops|, p);
    assert ops[..|ops|] == ops;
    OncePromise.RunKeepsInv(em, ops, p);
    if With(em, ops, p).promise != Pending {
      CleanIsErased(With(em, ops, p).em.table, p);
    }
  }

  // ---------------------------------------------------------------------------
  // The condition at the moment of the notices
  // ---------------------------------------------------------------------------

  /** A notice about ours that found no `once` listener of anybody else. */
  ghost predicate QuietEmit(e: Emit, p: Wait) {
    AboutOurs(e.args, p) ==> forall l :: l in e.listeners && l.OnceWrapper? ==> p.Ours(l)
  }

  ghost predicate QuietFrom(emitted: seq<Emit>, n: nat, p: Wait) {
    forall k :: n <= k < |emitted| ==> QuietEmit(emitted[k], p)
  }

  lemma {:induction false} DueComesFrom(emitted: seq<Emit>, call: Call)
    requires call in Due(emitted)
    ensures exists k :: 0 <= k < |emitted| && call.listener in emitted[k].listeners && call.args == emitted[k].args
    decreases |emitted|
  {
    var front, last := emitted[..|emitted| - 1], emitted[|emitted| - 1];
    if call in Due(front) {
      DueComesFrom(front, call);
      var k :| 0 <= k < |front| && call.listener in front[k].listeners && call.args == front[k].args;
      assert emitted[k] == front[k];
    } else {
      var i :| 0 <= i < |last.listeners| && Calls(last.listeners, last.args)[i] == call;
      assert call.listener == last.listeners[i];
    }
  }

  lemma QuietLosesNothing(s: WaitState, op: Op, p: Wait)
    requires InOrder(s.em) && QuietFrom(s.em.emitted, 0, p)
    ensures !LosesWrapper(s.em, op, p)
  {
    if LosesWrapper(s.em, op, p) {
      var call := s.em.queue[0].call;
      assert CallsIn(s.em.queue)[0] == call;
      assert Due(s.em.emitted)[|s.em.invoked|] == call;
      DueComesFrom(s.em.emitted, call);
    }
  }

  lemma {:induction false} RunGrows(em: State, ops: seq<Op>, n: nat, m: nat, p: Wait)
    requires n <= m <= |ops|
    ensures With(em, ops[..n], p).em.emitted <= With(em, ops[..m], p).em.emitted
    decreases m
  {
    hide With, Alone, RunsCaused, OncePromise.Next, Emission.Next;
    if n == m {
    } else {
      RunGrows(em, ops, n, m - 1, p);
      WithSnoc(em, ops, m - 1, p);
      NextGrows(With(em, ops[..m - 1], p), ops[m - 1], p);
    }
  }

  /** If no notice about ours finds a `once` listener of somebody else, the run loses no wrapper. */
  lemma QuietNoticesNeverLose(em: State, ops: seq<Op>, p: Wait)
    requires p.Valid() && Untouched(em, p) && ForeignOps(ops, p)
    requires QuietFrom(With(em, ops, p).em.emitted, 0, p)
    ensures NeverLoses(em, ops, p)
  {
    forall n | 0 <= n < |ops| ensures !LosesWrapper(With(em, ops[..n], p).em, ops[n], p) {
      ForeignFront(ops, n, p);
      RunKeepsHistoryInv(em, ops[..n], p);
      RunGrows(em, ops, n, |ops|, p);
      assert ops[..|ops|] == ops;
      QuietLosesNothing(With(em, ops[..n], p), ops[n], p);
    }
  }

  // ---------------------------------------------------------------------------
  // The condition at the call
  // ---------------------------------------------------------------------------

  ghost predicate NoOnceListener(t: Table, event: EventName) {
    forall l :: l in Listeners(t, event) ==> !l.OnceWrapper?
  }

  /** The notices about ours after the call, which are those of their removal, find no such listener. */
  ghost predicate QuietRemovals(em: State, ops: seq<Op>, p: Wait) {
    QuietFrom(With(em, ops, p).em.emitted, |Begin(em, p).em.emitted|, p)
  }

  lemma QuietBegin(em: State, p: Wait)
    requires p.Valid() && Untouched(em, p) && NoOnceListener(em.table, NEW_LISTENER)
    ensures QuietFrom(Begin(em, p).em.emitted, 0, p)
  {
    var em' := DoOn(em, p.name, p.ResolveWrapper(), false);
    assert forall l :: l in Listeners(em'.table, NEW_LISTENER) ==>
        l in Listeners(em.table, NEW_LISTENER) || l == p.ResolveWrapper();
  }

  lemma QuietCallNeverLoses(em: State, ops: seq<Op>, p: Wait)
    requires p.Valid() && Untouched(em, p) && ForeignOps(ops, p)
    requires NoOnceListener(em.table, NEW_LISTENER) && QuietRemovals(em, ops, p)
    ensures NeverLoses(em, ops, p)
  {
    QuietBegin(em, p);
    RunGrows(em, ops, 0, |ops|, p);
    assert ops[..0] == [] && ops[..|ops|] == ops;
    var first, all := Begin(em, p).em.emitted, With(em, ops, p).em.emitted;
    forall k | 0 <= k < |all| ensures QuietEmit(all[k], p) {
      if k < |first| {
        assert all[k] == first[k];
      }
    }
    QuietNoticesNeverLose(em, ops, p);
  }

  /** From `n` on no emission is a notice about ours. */
  ghost predicate NoneAbout(emitted: seq<Emit>, n: nat, p: Wait) {
    forall k :: n <= k < |emitted| ==> !AboutOurs(emitted[k].args, p)
  }

  function Repeated(op: Op, n: nat): seq<Op> {
    seq(n, _ => op)
  }

  /** Running somebody else's task queues at the end, and emits no notice about ours. */
  lemma RunForeignTask(s: WaitState, n: nat, p: Wait)
    requires s.em.queue != [] && NoneAbout(s.em.emitted, n, p)
    requires s.em.queue[0].ListenerTask? ==> p.Foreign(s.em.queue[0].call.listener)
    ensures var t := OncePromise.Next(s, RunNext, p);
      s.em.queue[1..] <= t.em.queue && NoneAbout(t.em.emitted, n, p)
  {
    if s.em.queue[0].ListenerTask? && s.em.queue[0].call.listener.OnceWrapper? {
      var l := s.em.queue[0].call.listener;
      NoticeArgs(l.event, l, p);
    }
  }

  /** The first tasks after the call, up to the notice of ours number `i`, are somebody else's. */
  lemma FirstTasksAreForeign(em: State, p: Wait, i: nat)
    requires p.Valid() && Untouched(em, p) && i < |Listeners(em.table, NEW_LISTENER)|
    ensures var q := Begin(em, p).em.queue;
      && |em.queue| + i < |q|
      && (forall m :: 0 <= m < |em.queue| + i && q[m].ListenerTask? ==> p.Foreign(q[m].call.listener))
      && q[|em.queue| + i] == ListenerTask(Call(Listeners(em.table, NEW_LISTENER)[i],
                                                [NameArg(p.name), ListenerArg(p.ResolveWrapper())]))
  {
    var ls, args := Listeners(em.table, NEW_LISTENER), [NameArg(p.name), ListenerArg(p.ResolveWrapper())];
    var first, q := em.queue + Tasks(Calls(ls, args)), Begin(em, p).em.queue;
    assert first <= q;
    forall m | 0 <= m < |em.queue| + i && q[m].ListenerTask? ensures p.Foreign(q[m].call.listener) {
      assert q[m] == first[m];
      if m >= |em.queue| {
        assert q[m].call.listener == ls[m - |em.queue|];
      }
    }
  }

  lemma RunOneMore(s: WaitState, q: seq<Task>, m: nat, n: nat, p: Wait)
    requires 0 < m < |q| && q[m - 1..] <= s.em.queue && NoneAbout(s.em.emitted, n, p)
    requires q[m - 1].ListenerTask? ==> p.Foreign(q[m - 1].call.listener)
    ensures var t := OncePromise.Next(s, RunNext, p);
      q[m..] <= t.em.queue && NoneAbout(t.em.emitted, n, p)
  {
    hide OncePromise.Next, NoneAbout;
    assert s.em.queue[0] == q[m - 1..][0] == q[m - 1];
    RunForeignTask(s, n, p);
    assert q[m..] == q[m - 1..][1..];
  }

  lemma NoTaskRun(em: State, p: Wait)
    ensures With(em, Repeated(RunNext, 0), p) == Begin(em, p)
    ensures NoneAbout(Begin(em, p).em.emitted, |Begin(em, p).em.emitted|, p)
    ensures Begin(em, p).em.queue[0..] == Begin(em, p).em.queue
  {
    hide Begin;
    assert Repeated(RunNext, 0) == [];
  }

  lemma WithOneMore(em: State, op: Op, m: nat, p: Wait)
    requires m > 0
    ensures With(em, Repeated(op, m), p) == OncePromise.Next(With(em, Repeated(op, m - 1), p), op, p)
  {
    var ops := Repeated(op, m);
    assert ops[..m - 1] == Repeated(op, m - 1) && ops[..m] == ops;
    hide With, Alone, RunsCaused, Repeated, OncePromise.Next;
    WithSnoc(em, ops, m - 1, p);
  }

  lemma {:induction false} RunFirstTasks(em: State, p: Wait, i: nat, m: nat)
    requires p.Valid() && Untouched(em, p) && i < |Listeners(em.table, NEW_LISTENER)| && m <= |em.queue| + i
    ensures var s, q := With(em, Repeated(RunNext, m), p), Begin(em, p).em.queue;
      |q| > m && q[m..] <= s.em.queue && NoneAbout(s.em.emitted, |Begin(em, p).em.emitted|, p)
  {
    hide Begin, Untouched, With, Alone, RunsCaused, Caused, NoneAbout, OncePromise.Next, Repeated, Tasks, Calls;
    FirstTasksAreForeign(em, p, i);
    var q := Begin(em, p).em.queue;
    if m == 0 {
      NoTaskRun(em, p);
    } else {
      RunFirstTasks(em, p, i, m - 1);
      WithOneMore(em, RunNext, m, p);
      RunOneMore(With(em, Repeated(RunNext, m - 1), p), q, m, |Begin(em, p).em.emitted|, p);
    }
  }

  /** A notice about ours calls a wrapper that has just been registered. */
  lemma LoseNext(s: WaitState, w: Listener, args: seq<Arg>, n: nat, p: Wait)
    requires w.OnceWrapper? && p.Foreign(w) && AboutOurs(args, p)
    requires s.em.queue != [] && s.em.queue[0] == ListenerTask(Call(w, args)) && NoneAbout(s.em.emitted, n, p)
    ensures var t := OncePromise.Next(s, On(w.event, w, false), p);
      LosesWrapper(t.em, RunNext, p) && NoneAbout(OncePromise.Next(t, RunNext, p).em.emitted, n, p)
  {
    var t := OncePromise.Next(s, On(w.event, w, false), p);
    NoticeArgs(w.event, w, p);
    RegisteredLast(s.em.table, w);
    assert t.em.queue[0] == s.em.queue[0];
    RunForeignTask(t, n, p);
  }

  /** A run that loses the wrapper of a `once` listener for "newListener". */
  lemma LosingRun(em: State, p: Wait, i: nat) returns (ops: seq<Op>)
    requires p.Valid() && Untouched(em, p) && i < |Listeners(em.table, NEW_LISTENER)|
    requires Listeners(em.table, NEW_LISTENER)[i].OnceWrapper?
    ensures ForeignOps(ops, p) && QuietRemovals(em, ops, p) && !NeverLoses(em, ops, p)
  {
    var w, n := Listeners(em.table, NEW_LISTENER)[i], |em.queue| + i;
    var args := [NameArg(p.name), ListenerArg(p.ResolveWrapper())];
    assert p.Foreign(w);
    hide Untouched, Begin, With, ForeignOp, ForeignOps, LosesWrapper, OncePromise.Next, NoneAbout, QuietRemovals;
    FirstTasksAreForeign(em, p, i);
    RunFirstTasks(em, p, i, n);
    NoticeArgs(p.name, p.ResolveWrapper(), p);
    var s := With(em, Repeated(RunNext, n), p);
    assert s.em.queue[0] == Begin(em, p).em.queue[n..][0];
    LoseNext(s, w, args, |Begin(em, p).em.emitted|, p);
    ops := Repeated(RunNext, n) + [On(w.event, w, false)] + [RunNext];
    LosingOpsAreForeign(w, n, p);
    TwoMore(em, Repeated(RunNext, n), On(w.event, w, false), RunNext, p);
    NoneAboutIsQuiet(em, ops, p);
    assert LosesWrapper(With(em, ops[..n + 1], p).em, ops[n + 1], p);
  }

  lemma LosingOpsAreForeign(w: Listener, n: nat, p: Wait)
    requires w.OnceWrapper? && p.Foreign(w)
    ensures ForeignOps(Repeated(RunNext, n) + [On(w.event, w, false)] + [RunNext], p)
  {
  }

  lemma NoneAboutIsQuiet(em: State, ops: seq<Op>, p: Wait)
    requires NoneAbout(With(em, ops, p).em.emitted, |Begin(em, p).em.emitted|, p)
    ensures QuietRemovals(em, ops, p)
  {
    hide With, Begin;
  }

  lemma TwoMore(em: State, ops: seq<Op>, a: Op, b: Op, p: Wait)
    ensures var all, n := ops + [a] + [b], |ops|;
      && all[..n] == ops
      && With(em, all[..n + 1], p) == OncePromise.Next(With(em, ops, p), a, p)
      && With(em, all, p) == OncePromise.Next(OncePromise.Next(With(em, ops, p), a, p), b, p)
  {
    var all, n := ops + [a] + [b], |ops|;
    assert all[..n] == ops && all[..n + 2] == all;
    WithSnoc(em, all, n, p);
    WithSnoc(em, all, n + 1, p);
  }

  lemma RegisteredLast(t: Table, w: Listener)
    requires w.OnceWrapper?
    ensures HasMatch(Listeners(Add(t, w.event, w, false), w.event), w)
  {
    var ls := Listeners(t, w.event);
    assert Matches((ls + [w])[|ls|], w);
  }

  /**
   * What a caller can check: nobody listens to "newListener" with `once` when `events.once` is called, if and
   * only if the stores agree throughout every run in which nobody listens to "removeListener" with `once` when
   * the call's own listeners are removed.
   */
  lemma NewListenerDecides(em: State, p: Wait)
    requires p.Valid() && Untouched(em, p)
    ensures NoOnceListener(em.table, NEW_LISTENER) <==>
            forall ops :: ForeignOps(ops, p) && QuietRemovals(em, ops, p) ==> AgreesThroughout(em, ops, p)
  {
    if NoOnceListener(em.table, NEW_LISTENER) {
      forall ops | ForeignOps(ops, p) && QuietRemovals(em, ops, p) ensures AgreesThroughout(em, ops, p) {
        QuietCallNeverLoses(em, ops, p);
        StoresAgreeUnlessWrapperLost(em, ops, p);
      }
    } else {
      var l :| l in Listeners(em.table, NEW_LISTENER) && l.OnceWrapper?;
      var i :| 0 <= i < |Listeners(em.table, NEW_LISTENER)| && Listeners(em.table, NEW_LISTENER)[i] == l;
      var ops := LosingRun(em, p, i);
      StoresAgreeUnlessWrapperLost(em, ops, p);
    }
  }

  /** An emitter with one listener, and nothing else ever done. */
  function Lone(event: EventName, w: Listener): State {
    State(map[event := [w]], [], [], [])
  }

  lemma LoneIsUntouched(event: EventName, w: Listener, p: Wait)
    requires p.Foreign(w)
    ensures Untouched(Lone(event, w), p)
  {
  }

  lemma RemoveLone(event: EventName, w: Listener)
    ensures Remove(map[event := [w]], event, w) == map[]
  {
  }

  /**
   * Somebody listens once to "newListener", `events.once` is called, and its first notice is run: the listener
   * is gone, while without the call it would still be there.
   */
  lemma OnceListenerForNewListenerIsLost(p: Wait, w: Listener)
    requires p.Valid() && w.OnceWrapper? && w.event == NEW_LISTENER && p.Foreign(w)
    ensures Untouched(Lone(NEW_LISTENER, w), p)
    ensures EraseAll(With(Lone(NEW_LISTENER, w), [RunNext], p).em.table, p) == map[]
    ensures Alone(Lone(NEW_LISTENER, w), [RunNext], p).table == map[NEW_LISTENER := [w]]
  {
    var em, ops := Lone(NEW_LISTENER, w), [RunNext];
    RemoveLone(NEW_LISTENER, w);
    hide Untouched, Begin, EraseAll, OncePromise.Inv, OncePromise.Next, Remove, Calls, Tasks;
    LoneIsUntouched(NEW_LISTENER, w, p);
    FirstTasksAreForeign(em, p, 0);
    NoticeArgs(p.name, p.ResolveWrapper(), p);
    BeginInv(em, p);
    assert ops[..0] == [] && ops[..1] == ops;
    WithSnoc(em, ops, 0, p);
    LoneWrapperIsLost(Begin(em, p), w, p);
  }

  lemma LoneWrapperIsLost(s: WaitState, w: Listener, p: Wait)
    requires p.Valid() && OncePromise.Inv(s, p) && w.OnceWrapper? && p.Foreign(w)
    requires s.em.queue != [] && s.em.queue[0].ListenerTask? && s.em.queue[0].call.listener == w
    ensures EraseAll(OncePromise.Next(s, RunNext, p).em.table, p) == Remove(EraseAll(s.em.table, p), w.event, w)
  {
    var called := s.em.(queue := s.em.queue[1..], invoked := s.em.invoked + [s.em.queue[0].call]);
    OffEffect(called, w.event, w, p);
    EraseOfForeignRemove(s.em.table, w.event, w, p);
  }
}
