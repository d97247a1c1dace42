/** When timers fire, told from the calls of setTimeout, setInterval and clearTimeout alone. */
module TimerHistory {
  import opened SteadyClock
  import opened Timers
  import opened TimerLaws

  function Max(a: int, b: int): int {
    if a >= b then a else b
  }

  /** The delay that the call asks for, in milliseconds. */
  function Asked(op: Op): int {
    match op
    case SetTimeout(delay, _) => Max(delay, 0)
    case SetInterval(delay, _) => Max(delay, 1)
    case Clear(_) => 0
  }

  /** The call that created the timer. */
  function CallOf(log: seq<Event>, id: int): (r: seq<Op>)
    ensures |r| <= 1
    decreases |log|
  {
    if log == [] then []
    else if Creates(log[|log| - 1], id) then [log[|log| - 1].op]
    else CallOf(log[..|log| - 1], id)
  }

  /** Whether the event is about the timer. */
  predicate Concerns(e: Event, id: int) {
    match e
    case Created(i, _) => i == id
    case Cleared(i) => i == id
    case Fired(data, _, _, _) => data.id == id
  }

  /**
   * When the timer is due, if it is set: after the delay asked for, since its creation or, if it is an interval,
   * since its callback last returned; a callback that throws, and clearing, end it.
   */
  function DueAt(log: seq<Event>, id: int): (r: seq<Time>)
    ensures |r| <= 1
    decreases |log|
  {
    if log == [] then []
    else
      var front, last := log[..|log| - 1], log[|log| - 1];
      if !Concerns(last, id) then DueAt(front, id)
      else
        match last
        case Cleared(_) => []
        case Created(_, op) => if op.Clear? then [] else [op.at + TICKS_PER_MS * Asked(op)]
        case Fired(_, _, end, threw) =>
          var call := CallOf(front, id);
          if !threw && call != [] && call[0].SetInterval? then [end + TICKS_PER_MS * Asked(call[0])] else []
  }

  /** The timer that the call makes, when it is due at that time. */
  function TimerOf(id: int, op: Op, due: Time): TimerData {
    TimerData(id, due, op.SetInterval?, if op.SetInterval? then Asked(op) else 0)
  }

  /** Exactly if the history says so the timer is set, and then as its call and the history say. */
  predicate AsRecorded(timers: map<int, TimerData>, log: seq<Event>, id: int) {
    && (id in timers <==> DueAt(log, id) != [])
    && (id in timers ==> CallOf(log, id) != [] && timers[id] == TimerOf(id, CallOf(log, id)[0], DueAt(log, id)[0]))
  }

  /** Every firing was due, and is what its call asked for. */
  ghost predicate FiredAsRecorded(log: seq<Event>) {
    forall k :: 0 <= k < |log| && log[k].Fired? ==> FiringIsDue(log[..k], log[k])
  }

  predicate FiringIsDue(before: seq<Event>, e: Event)
    requires e.Fired?
  {
    var call, due := CallOf(before, e.data.id), DueAt(before, e.data.id);
    call != [] && due != [] && e.data == TimerOf(e.data.id, call[0], due[0]) && due[0] <= e.now <= e.end
  }

  ghost predicate Recorded(s: Scheduler) {
    (forall id :: AsRecorded(s.timers, s.log, id)) && FiredAsRecorded(s.log)
  }

  // ---------------------------------------------------------------------------
  // Every step keeps the record
  // ---------------------------------------------------------------------------

  lemma RecordOfSnoc(log: seq<Event>, e: Event, id: int)
    ensures CallOf(log + [e], id) == if Creates(e, id) then [e.op] else CallOf(log, id)
    ensures !Concerns(e, id) ==> DueAt(log + [e], id) == DueAt(log, id)
    ensures e.Cleared? && e.id == id ==> DueAt(log + [e], id) == []
    ensures Creates(e, id) ==>
              DueAt(log + [e], id) == if e.op.Clear? then [] else [e.op.at + TICKS_PER_MS * Asked(e.op)]
    ensures e.Fired? && e.data.id == id ==>
              DueAt(log + [e], id) == (var call := CallOf(log, id);
                                       if !e.threw && call != [] && call[0].SetInterval?
                                       then [e.end + TICKS_PER_MS * Asked(call[0])]
                                       else [])
  {
    assert (log + [e])[..|log|] == log;
  }

  lemma ClearKeepsRecord(s: Scheduler, cleared: int, id: int)
    requires AsRecorded(s.timers, s.log, id)
    ensures AsRecorded(DoOp(s, Clear(cleared)).timers, s.log + [Cleared(cleared)], id)
  {
    RecordOfSnoc(s.log, Cleared(cleared), id);
    hide CallOf, DueAt, TimerOf;
  }

  lemma CreationKeepsRecord(s: Scheduler, op: Op, id: int)
    requires AsRecorded(s.timers, s.log, id) && !op.Clear?
    ensures AsRecorded(DoOp(s, op).timers, s.log + [Created(s.nextId, op)], id)
  {
    RecordOfSnoc(s.log, Created(s.nextId, op), id);
    hide CallOf, DueAt;
  }

  lemma OpKeepsRecord(s: Scheduler, op: Op, id: int)
    requires AsRecorded(s.timers, s.log, id)
    ensures AsRecorded(DoOp(s, op).timers, DoOp(s, op).log, id)
  {
    hide AsRecorded;
    if op.Clear? {
      ClearKeepsRecord(s, op.id, id);
    } else {
      CreationKeepsRecord(s, op, id);
    }
  }

  lemma {:induction false} OpsKeepRecord(s: Scheduler, ops: seq<Op>, id: int)
    requires AsRecorded(s.timers, s.log, id)
    ensures AsRecorded(DoOps(s, ops).timers, DoOps(s, ops).log, id)
    decreases |ops|
  {
    hide AsRecorded;
    if ops == [] {
    } else {
      OpsKeepRecord(s, ops[..|ops| - 1], id);
      OpKeepsRecord(DoOps(s, ops[..|ops| - 1]), ops[|ops| - 1], id);
    }
  }

  /** While its own callback runs, a timer can only be cleared. */
  lemma {:induction false} RecordOfRunning(log: seq<Event>, nextId: int, ops: seq<Op>, id: int)
    requires id < nextId
    ensures var all := log + OpsLog(nextId, ops);
      && CallOf(all, id) == CallOf(log, id)
      && DueAt(all, id) == if Cleared(id) in OpsLog(nextId, ops) then [] else DueAt(log, id)
    decreases |ops|
  {
    if ops == [] {
      assert log + [] == log;
    } else {
      var front, seg := ops[..|ops| - 1], OpsLog(nextId, ops);
      var last := seg[|seg| - 1];
      RecordOfRunning(log, nextId, front, id);
      OpsLogIsNew(nextId, front);
      assert log + seg == (log + OpsLog(nextId, front)) + [last];
      RecordOfSnoc(log + OpsLog(nextId, front), last, id);
    }
  }

  lemma TurnKeepsOthersRecord(s: Scheduler, id: int, now: Time, cb: Callback, other: int)
    requires WellFormed(s.timers, s.nextId) && id in s.timers && other != id
    requires AsRecorded(s.timers, s.log, other)
    ensures AsRecorded(Turn(s, id, now, cb).timers, Turn(s, id, now, cb).log, other)
  {
    var started := Started(s, id, now, cb);
    RecordOfSnoc(s.log, Fired(s.timers[id], now, cb.end, cb.throws), other);
    OpsKeepRecord(started, cb.ops, other);
    hide CallOf, DueAt, DoOps;
    var ran := DoOps(started, cb.ops);
    assert Turn(s, id, now, cb).log == ran.log;
    assert other in Turn(s, id, now, cb).timers <==> other in ran.timers;
  }

  lemma TurnKeepsOwnRecord(s: Scheduler, id: int, now: Time, cb: Callback)
    requires WellFormed(s.timers, s.nextId) && id in s.timers && AsRecorded(s.timers, s.log, id)
    ensures AsRecorded(Turn(s, id, now, cb).timers, Turn(s, id, now, cb).log, id)
  {
    var fired := Fired(s.timers[id], now, cb.end, cb.throws);
    var ops := OpsLog(s.nextId, cb.ops);
    TurnEffect(s, id, now, cb);
    RecordOfSnoc(s.log, fired, id);
    RecordOfRunning(s.log + [fired], s.nextId, cb.ops, id);
    assert TurnLog(s, id, now, cb) == [fired] + ops;
    assert s.log + ([fired] + ops) == (s.log + [fired]) + ops;
    if cb.throws {
      TurnEffectOfThrow(s, id, now, cb);
    } else {
      TurnEffectOnSelf(s, id, now, cb);
    }
    hide CallOf, DueAt, Turn, OpsLog;
  }

  lemma TurnFiresAsRecorded(s: Scheduler, id: int, now: Time, cb: Callback)
    requires WellFormed(s.timers, s.nextId) && id in s.timers && s.timers[id].expiry <= now <= cb.end
    requires AsRecorded(s.timers, s.log, id) && FiredAsRecorded(s.log)
    ensures FiredAsRecorded(Turn(s, id, now, cb).log)
  {
    var t, seg := Turn(s, id, now, cb), TurnLog(s, id, now, cb);
    TurnEffect(s, id, now, cb);
    TurnLogShape(s, id, now, cb);
    hide Turn, TurnLog, CallOf, DueAt;
    forall k | 0 <= k < |t.log| && t.log[k].Fired? ensures FiringIsDue(t.log[..k], t.log[k]) {
      if k < |s.log| {
        assert t.log[..k] == s.log[..k];
      } else {
        assert t.log[k] == seg[k - |s.log|];
        assert t.log[..k] == s.log;
      }
    }
  }

  lemma TurnKeepsRecorded(s: Scheduler, id: int, now: Time, cb: Callback)
    requires WellFormed(s.timers, s.nextId) && Recorded(s) && now <= cb.end
    requires id in s.timers ==> s.timers[id].expiry <= now
    ensures Recorded(Turn(s, id, now, cb))
  {
    if id in s.timers {
      hide AsRecorded, FiredAsRecorded, Turn;
      TurnFiresAsRecorded(s, id, now, cb);
      TurnKeepsOwnRecord(s, id, now, cb);
      forall other ensures AsRecorded(Turn(s, id, now, cb).timers, Turn(s, id, now, cb).log, other) {
        if other != id {
          TurnKeepsOthersRecord(s, id, now, cb, other);
        }
      }
    }
  }

  lemma JsKeepsRecorded(s: Scheduler, ops: seq<Op>)
    requires WellFormed(s.timers, s.nextId) && Recorded(s)
    ensures Recorded(DoOps(s, ops))
  {
    var t, seg := DoOps(s, ops), OpsLog(s.nextId, ops);
    OpsEffect(s, ops);
    OpsLogIsNew(s.nextId, ops);
    hide AsRecorded, DoOps, OpsLog, CallOf, DueAt;
    forall id ensures AsRecorded(t.timers, t.log, id) {
      OpsKeepRecord(s, ops, id);
    }
    forall k | 0 <= k < |t.log| && t.log[k].Fired? ensures FiringIsDue(t.log[..k], t.log[k]) {
      assert t.log[k] !in seg;
      assert t.log[..k] == s.log[..k];
    }
  }

  lemma {:induction false} TickKeepsRecorded(s: Scheduler, now: Time, due: seq<int>, callbacks: int -> Callback)
    requires TimerLaws.Inv(s) && Recorded(s) && Upcoming(s, now, due, callbacks)
    ensures Recorded(TickFrom(s, now, due, callbacks))
    decreases |due|
  {
    if due == [] {
    } else {
      var cb := callbacks(due[0]);
      TurnKeepsInv(s, due[0], now, cb);
      TurnKeepsUpcoming(s, now, due, callbacks);
      TurnKeepsRecorded(s, due[0], now, cb);
      hide TimerLaws.Inv, Recorded, Turn;
      if Aborts(s, due[0], cb) {
      } else {
        TickKeepsRecorded(Turn(s, due[0], now, cb), now, due[1..], callbacks);
      }
    }
  }

  lemma {:induction false} RunKeepsRecorded(s: Scheduler, steps: seq<Step>, t: Scheduler)
    requires TimerLaws.Inv(s) && Recorded(s) && IsRun(s, steps, t)
    ensures Recorded(t)
    decreases |steps|
  {
    if steps == [] {
    } else {
      StepKeepsInv(s, steps[0]);
      match steps[0] {
        case Js(ops) => JsKeepsRecorded(s, ops);
        case Tick(now, due, callbacks) => TickKeepsRecorded(s, now, due, callbacks);
      }
      hide TimerLaws.Inv, Recorded, Next;
      RunKeepsRecorded(Next(s, steps[0]), steps[1..], t);
    }
  }

  /**
   * The history decides: in every reachable state exactly the timers are set that the calls and callbacks so far
   * say, each as its call and the last return of its callback say; and every firing was due.
   */
  lemma HistoryDecides(s: Scheduler)
    requires Reachable(s)
    ensures Recorded(s)
  {
    var init := Scheduler(map[], 1, -1, false, []);
    var steps :| IsRun(init, steps, s);
    RunKeepsRecorded(init, steps, s);
  }

  // ---------------------------------------------------------------------------
  // What the calls promise
  // ---------------------------------------------------------------------------

  lemma {:induction false} CallIsCreation(log: seq<Event>, id: int, c: nat)
    requires CreatedOnce(log) && c < |log| && Creates(log[c], id)
    ensures CallOf(log, id) == [log[c].op]
    decreases |log|
  {
    var n := |log| - 1;
    if c == n {
    } else {
      assert CreatedOnce(log[..n]);
      CallIsCreation(log[..n], id, c);
    }
  }

  lemma {:induction false} CallHasCreation(log: seq<Event>, id: int) returns (c: nat)
    requires CallOf(log, id) != []
    ensures c < |log| && Creates(log[c], id)
    decreases |log|
  {
    if Creates(log[|log| - 1], id) {
      c := |log| - 1;
    } else {
      c := CallHasCreation(log[..|log| - 1], id);
    }
  }

  /** What happens to other timers does not matter. */
  lemma {:induction false} DueSince(log: seq<Event>, id: int, k: nat)
    requires k < |log| && forall m :: k < m < |log| ==> !Concerns(log[m], id)
    ensures DueAt(log, id) == DueAt(log[..k + 1], id)
    decreases |log|
  {
    var n := |log| - 1;
    if k == n {
      assert log[..k + 1] == log;
    } else {
      DueSince(log[..n], id, k);
      assert log[..n][..k + 1] == log[..k + 1];
    }
  }

  /** Every firing is of the kind that its call asked for, comes after it, and has its delay. */
  lemma FiringMatchesItsCall(s: Scheduler, created: nat, fired: nat)
    requires Reachable(s) && created < |s.log| && fired < |s.log|
    requires s.log[fired].Fired? && Creates(s.log[created], s.log[fired].data.id)
    ensures created < fired
    ensures s.log[fired].data.isInterval <==> s.log[created].op.SetInterval?
    ensures s.log[created].op.SetInterval? ==> s.log[fired].data.intervalMs == Max(s.log[created].op.delay, 1)
  {
    HistoryDecides(s);
    ReachableInv(s);
    var id, before := s.log[fired].data.id, s.log[..fired];
    assert FiringIsDue(before, s.log[fired]);
    var c := CallHasCreation(before, id);
    assert Creates(s.log[c], id);
    assert c == created;
    assert CreatedOnce(before);
    CallIsCreation(before, id, c);
  }

  /** A timer of setTimeout fires at most once. */
  lemma TimeoutFiresOnce(s: Scheduler, created: nat, i: nat, j: nat)
    requires Reachable(s) && created < |s.log| && i < |s.log| && j < |s.log|
    requires s.log[i].Fired? && Creates(s.log[created], s.log[i].data.id) && s.log[created].op.SetTimeout?
    requires s.log[j].Fired? && Creates(s.log[created], s.log[j].data.id)
    ensures i == j
  {
    FiringMatchesItsCall(s, created, i);
    FiringMatchesItsCall(s, created, j);
    if i < j {
      FiringsAreSpaced(s, i, j);
    } else if j < i {
      FiringsAreSpaced(s, j, i);
    }
  }

  /** Two firings of a timer of setInterval are the delay asked for apart, from the return of the earlier one. */
  lemma IntervalFiresEveryDelay(s: Scheduler, created: nat, i: nat, j: nat)
    requires Reachable(s) && created < |s.log| && i < j < |s.log|
    requires s.log[i].Fired? && Creates(s.log[created], s.log[i].data.id)
    requires s.log[j].Fired? && Creates(s.log[created], s.log[j].data.id)
    ensures s.log[created].op.SetInterval?
    ensures s.log[j].now >= s.log[i].end + TICKS_PER_MS * Max(s.log[created].op.delay, 1)
  {
    FiringMatchesItsCall(s, created, j);
    FiringsAreSpaced(s, i, j);
  }

  /** A timer that has neither fired nor been cleared is set, and due when the delay asked for has passed. */
  lemma UnfiredTimerIsDue(s: Scheduler, created: nat)
    requires Reachable(s) && created < |s.log| && s.log[created].Created?
    requires forall m :: created < m < |s.log| ==> !Concerns(s.log[m], s.log[created].id)
    ensures var id, op := s.log[created].id, s.log[created].op;
      && !op.Clear? && id in s.timers
      && s.timers[id].expiry == op.at + TICKS_PER_MS * Max(op.delay, if op.SetInterval? then 1 else 0)
  {
    HistoryDecides(s);
    ReachableInv(s);
    var id := s.log[created].id;
    assert AsRecorded(s.timers, s.log, id);
    DueSince(s.log, id, created);
    assert s.log[..created + 1][..created] == s.log[..created];
    CallIsCreation(s.log, id, created);
  }

  /** After a firing that did not throw, the history says that the interval is due after its delay. */
  lemma DueAfterFiring(log: seq<Event>, id: int, created: nat, fired: nat)
    requires CreatedOnce(log) && created < fired < |log|
    requires Creates(log[created], id) && log[created].op.SetInterval?
    requires log[fired].Fired? && log[fired].data.id == id && !log[fired].threw
    requires forall m :: fired < m < |log| ==> !Concerns(log[m], id)
    ensures DueAt(log, id) == [log[fired].end + TICKS_PER_MS * Max(log[created].op.delay, 1)]
  {
    hide CallOf, DueAt;
    DueSince(log, id, fired);
    FrontIsDistinct(log, fired);
    CallIsCreation(log[..fired], id, created);
    assert log[..fired + 1] == log[..fired] + [log[fired]];
    RecordOfSnoc(log[..fired], log[fired], id);
  }

  /** An interval whose callback has returned normally and that has not been cleared since is due again. */
  lemma IntervalIsDueAgain(s: Scheduler, created: nat, fired: nat)
    requires Reachable(s) && created < |s.log| && fired < |s.log|
    requires s.log[fired].Fired? && Creates(s.log[created], s.log[fired].data.id) && s.log[created].op.SetInterval?
    requires !s.log[fired].threw && forall m :: fired < m < |s.log| ==> !Concerns(s.log[m], s.log[fired].data.id)
    ensures var id, op := s.log[fired].data.id, s.log[created].op;
      id in s.timers && s.timers[id].expiry == s.log[fired].end + TICKS_PER_MS * Max(op.delay, 1)
  {
    var id := s.log[fired].data.id;
    HistoryDecides(s);
    assert AsRecorded(s.timers, s.log, id);
    ReachableInv(s);
    assert CreatedOnce(s.log);
    hide Reachable, TimerLaws.Inv, Recorded, CallOf, DueAt, CreatedOnce;
    FiringMatchesItsCall(s, created, fired);
    DueAfterFiring(s.log, id, created, fired);
  }

  lemma FrontIsDistinct(events: seq<Event>, n: nat)
    requires CreatedOnce(events) && n <= |events|
    ensures CreatedOnce(events[..n])
  {
  }

  /**
   * A tick without exceptions fires a timer that has neither fired nor been cleared, nor is cleared in the tick,
   * if and only if the delay asked for has passed since its call.
   */
  lemma TickFiresByTheCall(s: Scheduler, created: nat, now: Time, due: seq<int>, callbacks: int -> Callback)
    requires Reachable(s) && created < |s.log| && s.log[created].Created?
    requires forall m :: created < m < |s.log| ==> !Concerns(s.log[m], s.log[created].id)
    requires IsDueOrder(s.timers, now, due) && forall d :: d in due ==> !callbacks(d).throws
    requires Cleared(s.log[created].id) !in TickLog(s, now, due, callbacks)
    ensures var op, events := s.log[created].op, TickLog(s, now, due, callbacks);
      && !op.Clear?
      && ((exists e :: e in events && e.Fired? && e.data.id == s.log[created].id) <==>
          now >= op.at + TICKS_PER_MS * Max(op.delay, if op.SetInterval? then 1 else 0))
  {
    UnfiredTimerIsDue(s, created);
    ReachableInv(s);
    TickFiresTheDue(s, now, due, callbacks);
    var id, events := s.log[created].id, TickLog(s, now, due, callbacks);
    hide TickLog, TickFrom, IsDueOrder, Reachable;
    if s.timers[id].expiry <= now {
      assert FiresUnlessCleared(events, id);
    }
  }
}
