/** What the scheduler guarantees over one tick and over whole runs. */
module TimerLaws {
  import opened SteadyClock
  import opened Timers

  // ---------------------------------------------------------------------------
  // The events of scripts, turns and ticks
  // ---------------------------------------------------------------------------

  /** The events of a script that starts when the next id is `nextId`. */
  function OpsLog(nextId: int, ops: seq<Op>): seq<Event>
    decreases |ops|
  {
    if ops == [] then []
    else
      OpsLog(nextId, ops[..|ops| - 1]) +
      [match ops[|ops| - 1]
       case Clear(id) => Cleared(id)
       case op => Created(OpsNextId(nextId, ops[..|ops| - 1]), op)]
  }

  function OpsNextId(nextId: int, ops: seq<Op>): int
    decreases |ops|
  {
    if ops == [] then nextId
    else OpsNextId(nextId, ops[..|ops| - 1]) + if ops[|ops| - 1].Clear? then 0 else 1
  }

  function TurnLog(s: Scheduler, id: int, now: Time, cb: Callback): seq<Event> {
    if id !in s.timers then [] else [Fired(s.timers[id], now, cb.end, cb.throws)] + OpsLog(s.nextId, cb.ops)
  }

  function TickLog(s: Scheduler, now: Time, due: seq<int>, callbacks: int -> Callback): seq<Event>
    decreases |due|
  {
    if due == [] then []
    else
      var cb := callbacks(due[0]);
      TurnLog(s, due[0], now, cb) +
      if Aborts(s, due[0], cb) then [] else TickLog(Turn(s, due[0], now, cb), now, due[1..], callbacks)
  }

  predicate Creates(e: Event, id: int) {
    e.Created? && e.id == id
  }

  /** Whether the last word on `id` is its creation; without any word it is `before`. */
  function Live(before: bool, events: seq<Event>, id: int): bool
    decreases |events|
  {
    if events == [] then before
    else if Creates(events[|events| - 1], id) then true
    else if events[|events| - 1] == Cleared(id) then false
    else Live(before, events[..|events| - 1], id)
  }

  lemma {:induction false} LiveAppend(before: bool, a: seq<Event>, b: seq<Event>, id: int)
    ensures Live(before, a + b, id) == Live(Live(before, a, id), b, id)
    decreases |b|
  {
    if b == [] {
      assert a + b == a;
    } else {
      assert (a + b)[..|a + b| - 1] == a + b[..|b| - 1];
      LiveAppend(before, a, b[..|b| - 1], id);
    }
  }

  lemma {:induction false} LiveWithoutCreation(before: bool, events: seq<Event>, id: int)
    requires forall e :: e in events ==> !Creates(e, id)
    ensures Live(before, events, id) == (before && Cleared(id) !in events)
    decreases |events|
  {
    if events == [] {
    } else {
      var front, last := events[..|events| - 1], events[|events| - 1];
      assert events == front + [last];
      LiveWithoutCreation(before, front, id);
    }
  }

  lemma {:induction false} LiveSince(events: seq<Event>, id: int, i: nat)
    requires Live(false, events, id) && i < |events| && events[i] == Cleared(id)
    ensures exists k :: i < k < |events| && Creates(events[k], id)
    decreases |events|
  {
    var n := |events| - 1;
    if Creates(events[n], id) {
    } else {
      assert i < n;
      LiveSince(events[..n], id, i);
      var k :| i < k < n && Creates(events[..n][k], id);
      assert Creates(events[k], id);
    }
  }

  // ---------------------------------------------------------------------------
  // What a script and a turn change
  // ---------------------------------------------------------------------------

  lemma {:induction false} OpsLogIsNew(nextId: int, ops: seq<Op>)
    ensures OpsNextId(nextId, ops) >= nextId
    ensures forall e :: e in OpsLog(nextId, ops) ==> !e.Fired?
    ensures forall e :: e in OpsLog(nextId, ops) && e.Created? ==> nextId <= e.id < OpsNextId(nextId, ops)
    decreases |ops|
  {
    if ops == [] {
    } else {
      OpsLogIsNew(nextId, ops[..|ops| - 1]);
    }
  }

  lemma {:induction false} OpsEffect(s: Scheduler, ops: seq<Op>)
    requires WellFormed(s.timers, s.nextId)
    ensures var t, seg := DoOps(s, ops), OpsLog(s.nextId, ops);
            && t.log == s.log + seg
            && t.nextId == OpsNextId(s.nextId, ops)
            && t.runningId == s.runningId
            && t.runningCleared == (s.runningCleared || Cleared(s.runningId) in seg)
            && WellFormed(t.timers, t.nextId)
    decreases |ops|
  {
    if ops == [] {
    } else {
      OpsEffect(s, ops[..|ops| - 1]);
    }
  }

  lemma {:induction false} OpsEffectOn(s: Scheduler, ops: seq<Op>, id: int)
    requires WellFormed(s.timers, s.nextId)
    ensures var t, seg := DoOps(s, ops), OpsLog(s.nextId, ops);
            && (id in t.timers <==> Live(id in s.timers, seg, id))
            && (id < s.nextId && id in t.timers ==> id in s.timers && t.timers[id] == s.timers[id])
    decreases |ops|
  {
    if ops == [] {
    } else {
      var front := ops[..|ops| - 1];
      OpsEffect(s, front);
      OpsLogIsNew(s.nextId, front);
      OpsEffectOn(s, front, id);
      var seg := OpsLog(s.nextId, ops);
      assert seg[..|seg| - 1] == OpsLog(s.nextId, front);
    }
  }

  /** A timer that has been created is set, if it still is, as the call that created it says. */
  ghost predicate LoggedAsSet(timers: map<int, TimerData>, events: seq<Event>) {
    forall k :: 0 <= k < |events| && events[k].Created? ==>
                  && !events[k].op.Clear?
                  && (events[k].id in timers ==> timers[events[k].id] == NewTimer(events[k].id, events[k].op))
  }

  lemma {:induction false} OpsSetAsLogged(s: Scheduler, ops: seq<Op>)
    requires WellFormed(s.timers, s.nextId)
    ensures LoggedAsSet(DoOps(s, ops).timers, OpsLog(s.nextId, ops))
    decreases |ops|
  {
    if ops == [] {
    } else {
      var front := ops[..|ops| - 1];
      OpsSetAsLogged(s, front);
      OpsEffect(s, front);
      OpsLogIsNew(s.nextId, front);
      var seg := OpsLog(s.nextId, ops);
      var before := OpsLog(s.nextId, front);
      assert forall k :: 0 <= k < |seg| - 1 ==> seg[k] == before[k] && seg[k] in before;
    }
  }

  /** A script keeps an existing timer, unless it clears it. */
  lemma OpsEffectOnOld(s: Scheduler, ops: seq<Op>, id: int)
    requires WellFormed(s.timers, s.nextId) && id < s.nextId
    ensures var t, seg := DoOps(s, ops), OpsLog(s.nextId, ops);
            && (id in t.timers <==> id in s.timers && Cleared(id) !in seg)
            && (id in t.timers ==> t.timers[id] == s.timers[id])
  {
    OpsEffectOn(s, ops, id);
    OpsLogIsNew(s.nextId, ops);
    LiveWithoutCreation(id in s.timers, OpsLog(s.nextId, ops), id);
  }

  lemma TurnEffect(s: Scheduler, id: int, now: Time, cb: Callback)
    requires WellFormed(s.timers, s.nextId)
    ensures var t := Turn(s, id, now, cb);
            && t.log == s.log + TurnLog(s, id, now, cb)
            && WellFormed(t.timers, t.nextId)
            && t.nextId >= s.nextId
            && (s.runningId == -1 ==> t.runningId == -1)
  {
    if id in s.timers {
      var started := Started(s, id, now, cb);
      OpsEffect(started, cb.ops);
      OpsLogIsNew(s.nextId, cb.ops);
    } else {
      assert s.log + [] == s.log;
    }
  }

  lemma TurnLogShape(s: Scheduler, id: int, now: Time, cb: Callback)
    ensures forall e :: e in TurnLog(s, id, now, cb) && e.Created? ==> s.nextId <= e.id < Turn(s, id, now, cb).nextId
    ensures forall k :: 0 <= k < |TurnLog(s, id, now, cb)| && TurnLog(s, id, now, cb)[k].Fired? ==>
                          && k == 0 && id in s.timers
                          && TurnLog(s, id, now, cb)[k] == Fired(s.timers[id], now, cb.end, cb.throws)
    ensures WellFormed(s.timers, s.nextId) && id in s.timers ==> TurnLog(s, id, now, cb) != []
  {
    OpsLogIsNew(s.nextId, cb.ops);
    if id in s.timers {
      NextIdAfterOps(Started(s, id, now, cb), cb.ops);
    }
  }

  lemma {:induction false} NextIdAfterOps(s: Scheduler, ops: seq<Op>)
    ensures DoOps(s, ops).nextId == OpsNextId(s.nextId, ops)
    decreases |ops|
  {
    if ops == [] {
    } else {
      NextIdAfterOps(s, ops[..|ops| - 1]);
    }
  }

  /** A turn keeps every other existing timer, unless it clears it. */
  lemma TurnEffectOnOther(s: Scheduler, id: int, now: Time, cb: Callback, other: int)
    requires WellFormed(s.timers, s.nextId) && other != id && other < s.nextId
    ensures var t := Turn(s, id, now, cb);
            && (other in t.timers <==> other in s.timers && Cleared(other) !in TurnLog(s, id, now, cb))
            && (other in t.timers ==> t.timers[other] == s.timers[other])
  {
    if id in s.timers {
      OpsEffectOnOld(Started(s, id, now, cb), cb.ops, other);
    }
  }

  /** The timer of the turn stays only as an interval that was not cleared during its own callback. */
  lemma TurnEffectOnSelf(s: Scheduler, id: int, now: Time, cb: Callback)
    requires WellFormed(s.timers, s.nextId) && id in s.timers && !cb.throws
    ensures var t := Turn(s, id, now, cb);
            && (id in t.timers <==> s.timers[id].isInterval && Cleared(id) !in TurnLog(s, id, now, cb))
            && (id in t.timers ==> t.timers[id] == Rescheduled(s.timers[id], cb.end))
  {
    var started := Started(s, id, now, cb);
    OpsEffect(started, cb.ops);
    OpsEffectOnOld(started, cb.ops, id);
  }

  lemma TurnEffectOnNew(s: Scheduler, id: int, now: Time, cb: Callback, newId: int)
    requires WellFormed(s.timers, s.nextId) && newId >= s.nextId
    ensures newId in Turn(s, id, now, cb).timers <==> Live(false, TurnLog(s, id, now, cb), newId)
  {
    if id in s.timers {
      OpsEffectOn(Started(s, id, now, cb), cb.ops, newId);
      LiveAppend(false, [Fired(s.timers[id], now, cb.end, cb.throws)], OpsLog(s.nextId, cb.ops), newId);
    }
  }

  lemma TurnSetsAsLogged(s: Scheduler, id: int, now: Time, cb: Callback)
    requires WellFormed(s.timers, s.nextId)
    ensures LoggedAsSet(Turn(s, id, now, cb).timers, TurnLog(s, id, now, cb))
  {
    if id in s.timers {
      var started := Started(s, id, now, cb);
      var ops := OpsLog(s.nextId, cb.ops);
      OpsSetAsLogged(started, cb.ops);
      OpsLogIsNew(s.nextId, cb.ops);
      var seg := TurnLog(s, id, now, cb);
      assert forall k :: 0 < k < |seg| ==> seg[k] == ops[k - 1] && seg[k] in ops;
    }
  }

  /** A throwing callback takes its timer with it. */
  lemma TurnEffectOfThrow(s: Scheduler, id: int, now: Time, cb: Callback)
    requires WellFormed(s.timers, s.nextId) && id in s.timers && cb.throws
    ensures id !in Turn(s, id, now, cb).timers
  {
    OpsEffectOnOld(Started(s, id, now, cb), cb.ops, id);
  }

  // ---------------------------------------------------------------------------
  // One tick
  // ---------------------------------------------------------------------------

  /** The timers of `due` that are still set are in the order of their expiry. */
  ghost predicate StillSorted(timers: map<int, TimerData>, due: seq<int>) {
    forall i, j :: 0 <= i < j < |due| && due[i] in timers && due[j] in timers ==>
                     timers[due[i]].expiry <= timers[due[j]].expiry
  }

  /** The rest of a tick is under way: the ids are known, distinct and in order, and no callback throws. */
  ghost predicate MidTick(s: Scheduler, due: seq<int>, callbacks: int -> Callback) {
    && WellFormed(s.timers, s.nextId)
    && Distinct(due)
    && StillSorted(s.timers, due)
    && (forall i :: 0 <= i < |due| ==> due[i] < s.nextId && !callbacks(due[i]).throws)
  }

  lemma MidTickStep(s: Scheduler, now: Time, due: seq<int>, callbacks: int -> Callback)
    requires MidTick(s, due, callbacks) && due != []
    ensures MidTick(Turn(s, due[0], now, callbacks(due[0])), due[1..], callbacks)
    ensures forall i :: 0 < i < |due| ==> due[i] != due[0]
  {
    var t := Turn(s, due[0], now, callbacks(due[0]));
    TurnEffect(s, due[0], now, callbacks(due[0]));
    forall i | 0 <= i < |due[1..]| && due[1..][i] in t.timers
      ensures due[1..][i] in s.timers && t.timers[due[1..][i]] == s.timers[due[1..][i]]
    {
      assert due[1..][i] == due[i + 1];
      TurnEffectOnOther(s, due[0], now, callbacks(due[0]), due[i + 1]);
    }
    forall i, j | 0 <= i < j < |due[1..]| && due[1..][i] in t.timers && due[1..][j] in t.timers
      ensures t.timers[due[1..][i]].expiry <= t.timers[due[1..][j]].expiry
    {
      assert due[1..][i] == due[i + 1] && due[1..][j] == due[j + 1];
    }
  }

  /** A timer that is not due survives unless a callback clears it. */
  lemma {:induction false} TickOnIdle(s: Scheduler, now: Time, due: seq<int>, callbacks: int -> Callback, id: int)
    requires MidTick(s, due, callbacks) && id !in due && id < s.nextId
    ensures var t := TickFrom(s, now, due, callbacks);
            && (id in t.timers <==> id in s.timers && Cleared(id) !in TickLog(s, now, due, callbacks))
            && (id in t.timers ==> t.timers[id] == s.timers[id])
    decreases |due|
  {
    if due == [] {
    } else {
      var s' := Turn(s, due[0], now, callbacks(due[0]));
      MidTickStep(s, now, due, callbacks);
      TurnEffect(s, due[0], now, callbacks(due[0]));
      TurnEffectOnOther(s, due[0], now, callbacks(due[0]), id);
      TickOnIdle(s', now, due[1..], callbacks, id);
    }
  }

  /** A due timer stays only as an interval that no callback clears, and is then due again later. */
  lemma {:induction false} TickOnDue(s: Scheduler, now: Time, due: seq<int>, callbacks: int -> Callback, id: int)
    requires MidTick(s, due, callbacks) && id in due && id in s.timers
    ensures var t := TickFrom(s, now, due, callbacks);
            && (id in t.timers <==> s.timers[id].isInterval && Cleared(id) !in TickLog(s, now, due, callbacks))
            && (id in t.timers ==> t.timers[id] == Rescheduled(s.timers[id], callbacks(id).end))
    decreases |due|
  {
    var s' := Turn(s, due[0], now, callbacks(due[0]));
    MidTickStep(s, now, due, callbacks);
    TurnEffect(s, due[0], now, callbacks(due[0]));
    if id == due[0] {
      TurnEffectOnSelf(s, id, now, callbacks(id));
      TickOnIdle(s', now, due[1..], callbacks, id);
    } else {
      TurnEffectOnOther(s, due[0], now, callbacks(due[0]), id);
      if id in s'.timers {
        TickOnDue(s', now, due[1..], callbacks, id);
      } else {
        TickOnCleared(s', now, due[1..], callbacks, id);
      }
    }
  }

  /** An old id that is not set any more stays so and does not fire. */
  lemma {:induction false} TickOnCleared(s: Scheduler, now: Time, due: seq<int>, callbacks: int -> Callback, id: int)
    requires MidTick(s, due, callbacks) && id !in s.timers && id < s.nextId
    ensures id !in TickFrom(s, now, due, callbacks).timers
    ensures forall e :: e in TickLog(s, now, due, callbacks) && e.Fired? ==> e.data.id != id
    decreases |due|
  {
    if due == [] {
    } else {
      var s' := Turn(s, due[0], now, callbacks(due[0]));
      MidTickStep(s, now, due, callbacks);
      TurnEffect(s, due[0], now, callbacks(due[0]));
      TurnLogShape(s, due[0], now, callbacks(due[0]));
      if id != due[0] {
        TurnEffectOnOther(s, due[0], now, callbacks(due[0]), id);
      }
      TickOnCleared(s', now, due[1..], callbacks, id);
    }
  }

  /** A timer that a callback creates is left over unless a later call clears it. */
  lemma {:induction false} TickOnNew(s: Scheduler, now: Time, due: seq<int>, callbacks: int -> Callback, id: int)
    requires MidTick(s, due, callbacks) && id >= s.nextId
    ensures id in TickFrom(s, now, due, callbacks).timers <==> Live(false, TickLog(s, now, due, callbacks), id)
    decreases |due|
  {
    if due == [] {
    } else {
      var cb := callbacks(due[0]);
      var s' := Turn(s, due[0], now, cb);
      var seg, rest := TurnLog(s, due[0], now, cb), TickLog(s', now, due[1..], callbacks);
      MidTickStep(s, now, due, callbacks);
      TurnEffect(s, due[0], now, cb);
      TurnLogShape(s, due[0], now, cb);
      TurnEffectOnNew(s, due[0], now, cb, id);
      LiveAppend(false, seg, rest, id);
      if id >= s'.nextId {
        TickOnNew(s', now, due[1..], callbacks, id);
        LiveWithoutCreation(false, seg, id);
      } else {
        assert id !in due[1..];
        TickOnIdle(s', now, due[1..], callbacks, id);
        TickLogIsNew(s', now, due[1..], callbacks);
        LiveWithoutCreation(Live(false, seg, id), rest, id);
      }
    }
  }

  /** What a tick creates is left over as it was created. */
  lemma {:induction false} TickSetsAsLogged(s: Scheduler, now: Time, due: seq<int>, callbacks: int -> Callback)
    requires MidTick(s, due, callbacks)
    ensures LoggedAsSet(TickFrom(s, now, due, callbacks).timers, TickLog(s, now, due, callbacks))
    decreases |due|
  {
    if due == [] {
    } else {
      var cb := callbacks(due[0]);
      var s' := Turn(s, due[0], now, cb);
      var t := TickFrom(s', now, due[1..], callbacks);
      var seg := TurnLog(s, due[0], now, cb);
      MidTickStep(s, now, due, callbacks);
      TurnEffect(s, due[0], now, cb);
      TurnLogShape(s, due[0], now, cb);
      TurnSetsAsLogged(s, due[0], now, cb);
      TickSetsAsLogged(s', now, due[1..], callbacks);
      forall k | 0 <= k < |seg| && seg[k].Created?
        ensures seg[k].id in t.timers ==> seg[k].id in s'.timers && t.timers[seg[k].id] == s'.timers[seg[k].id]
      {
        assert seg[k] in seg;
        TickOnIdle(s', now, due[1..], callbacks, seg[k].id);
      }
    }
  }

  lemma {:induction false} TickLogIsNew(s: Scheduler, now: Time, due: seq<int>, callbacks: int -> Callback)
    requires MidTick(s, due, callbacks)
    ensures forall e :: e in TickLog(s, now, due, callbacks) && e.Created? ==> e.id >= s.nextId
    decreases |due|
  {
    if due == [] {
    } else {
      MidTickStep(s, now, due, callbacks);
      TurnEffect(s, due[0], now, callbacks(due[0]));
      TurnLogShape(s, due[0], now, callbacks(due[0]));
      TickLogIsNew(Turn(s, due[0], now, callbacks(due[0])), now, due[1..], callbacks);
    }
  }

  lemma {:induction false} TickAppendsLog(s: Scheduler, now: Time, due: seq<int>, callbacks: int -> Callback)
    requires WellFormed(s.timers, s.nextId)
    ensures var t := TickFrom(s, now, due, callbacks);
            t.log == s.log + TickLog(s, now, due, callbacks) && WellFormed(t.timers, t.nextId)
    decreases |due|
  {
    if due == [] {
    } else {
      var cb := callbacks(due[0]);
      TurnEffect(s, due[0], now, cb);
      if !Aborts(s, due[0], cb) {
        TickAppendsLog(Turn(s, due[0], now, cb), now, due[1..], callbacks);
      }
    }
  }

  /** Only timers that were set and due at the start fire, with their data of that moment. */
  ghost predicate FiresFrom(e: Event, s: Scheduler, now: Time, due: seq<int>, callbacks: int -> Callback) {
    e.Fired? && e.data.id in due && e.data.id in s.timers &&
    e == Fired(s.timers[e.data.id], now, callbacks(e.data.id).end, callbacks(e.data.id).throws)
  }

  lemma {:induction false} TickFires(s: Scheduler, now: Time, due: seq<int>, callbacks: int -> Callback)
    requires MidTick(s, due, callbacks)
    ensures forall e :: e in TickLog(s, now, due, callbacks) && e.Fired? ==> FiresFrom(e, s, now, due, callbacks)
    decreases |due|
  {
    if due == [] {
    } else {
      var cb := callbacks(due[0]);
      var s' := Turn(s, due[0], now, cb);
      MidTickStep(s, now, due, callbacks);
      TurnLogShape(s, due[0], now, cb);
      TickFires(s', now, due[1..], callbacks);
      forall e | e in TickLog(s, now, due, callbacks) && e.Fired? ensures FiresFrom(e, s, now, due, callbacks) {
        if e in TickLog(s', now, due[1..], callbacks) {
          assert FiresFrom(e, s', now, due[1..], callbacks);
          var i :| 0 <= i < |due[1..]| && due[1..][i] == e.data.id;
          assert due[i + 1] == e.data.id;
          TurnEffectOnOther(s, due[0], now, cb, e.data.id);
        }
      }
    }
  }

  /** Each timer fires at most once, and in the order of expiry. */
  ghost predicate FiresInOrder(events: seq<Event>) {
    forall i, j :: 0 <= i < j < |events| && events[i].Fired? && events[j].Fired? ==>
                     events[i].data.id != events[j].data.id && events[i].data.expiry <= events[j].data.expiry
  }

  lemma {:induction false} TickFiresInOrder(s: Scheduler, now: Time, due: seq<int>, callbacks: int -> Callback)
    requires MidTick(s, due, callbacks)
    ensures FiresInOrder(TickLog(s, now, due, callbacks))
    decreases |due|
  {
    if due == [] {
    } else {
      var cb := callbacks(due[0]);
      var s' := Turn(s, due[0], now, cb);
      var seg, rest := TurnLog(s, due[0], now, cb), TickLog(s', now, due[1..], callbacks);
      MidTickStep(s, now, due, callbacks);
      TurnLogShape(s, due[0], now, cb);
      TickFiresInOrder(s', now, due[1..], callbacks);
      TickFires(s', now, due[1..], callbacks);
      forall k | 0 <= k < |rest| && rest[k].Fired?
        ensures rest[k].data.id != due[0]
        ensures due[0] in s.timers ==> s.timers[due[0]].expiry <= rest[k].data.expiry
      {
        var id := rest[k].data.id;
        assert FiresFrom(rest[k], s', now, due[1..], callbacks);
        var i :| 0 <= i < |due[1..]| && due[1..][i] == id;
        assert due[i + 1] == id;
        TurnEffectOnOther(s, due[0], now, cb, id);
      }
      JoinInOrder(seg, rest, due[0], s.timers);
    }
  }

  lemma JoinInOrder(seg: seq<Event>, rest: seq<Event>, id: int, timers: map<int, TimerData>)
    requires forall k :: 0 <= k < |seg| && seg[k].Fired? ==>
                           k == 0 && id in timers && seg[k].data == timers[id] && seg[k].data.id == id
    requires FiresInOrder(rest)
    requires forall k :: 0 <= k < |rest| && rest[k].Fired? ==>
                           rest[k].data.id != id && (id in timers ==> timers[id].expiry <= rest[k].data.expiry)
    ensures FiresInOrder(seg + rest)
  {
  }

  /** A due timer fires before any call clears it, or an earlier callback clears it and it does not fire. */
  ghost predicate FiresUnlessCleared(events: seq<Event>, id: int) {
    || (exists j :: 0 <= j < |events| && events[j].Fired? && events[j].data.id == id && Cleared(id) !in events[..j])
    || (Cleared(id) in events && forall e :: e in events && e.Fired? ==> e.data.id != id)
  }

  lemma {:induction false} TickFiresUnlessCleared(
    s: Scheduler, now: Time, due: seq<int>, callbacks: int -> Callback, id: int)
    requires MidTick(s, due, callbacks) && id in due && id in s.timers
    ensures FiresUnlessCleared(TickLog(s, now, due, callbacks), id)
    decreases |due|
  {
    var cb := callbacks(due[0]);
    var s' := Turn(s, due[0], now, cb);
    var seg, rest := TurnLog(s, due[0], now, cb), TickLog(s', now, due[1..], callbacks);
    var events := TickLog(s, now, due, callbacks);
    assert events == seg + rest;
    MidTickStep(s, now, due, callbacks);
    TurnLogShape(s, due[0], now, cb);
    TurnEffect(s, due[0], now, cb);
    if id == due[0] {
      assert events[0] == Fired(s.timers[id], now, cb.end, cb.throws);
      assert events[..0] == [];
    } else {
      TurnEffectOnOther(s, due[0], now, cb, id);
      if id in s'.timers {
        TickFiresUnlessCleared(s', now, due[1..], callbacks, id);
        FiresUnlessClearedAfter(seg, rest, id);
      } else {
        TickOnCleared(s', now, due[1..], callbacks, id);
      }
    }
  }

  lemma FiresUnlessClearedAfter(seg: seq<Event>, rest: seq<Event>, id: int)
    requires FiresUnlessCleared(rest, id) && Cleared(id) !in seg
    requires forall e :: e in seg && e.Fired? ==> e.data.id != id
    ensures FiresUnlessCleared(seg + rest, id)
  {
    if exists j :: 0 <= j < |rest| && rest[j].Fired? && rest[j].data.id == id && Cleared(id) !in rest[..j] {
      var j :| 0 <= j < |rest| && rest[j].Fired? && rest[j].data.id == id && Cleared(id) !in rest[..j];
      assert (seg + rest)[|seg| + j] == rest[j];
      assert (seg + rest)[..|seg| + j] == seg + rest[..j];
    }
  }

  lemma DueOrderIsMidTick(s: Scheduler, now: Time, due: seq<int>, callbacks: int -> Callback)
    requires WellFormed(s.timers, s.nextId) && IsDueOrder(s.timers, now, due)
    requires forall id :: id in due ==> !callbacks(id).throws
    ensures MidTick(s, due, callbacks)
  {
  }

  /**
   * Tick accounting, for a tick without exceptions: exactly the timers due at its start fire, each once,
   * in the order of expiry and never early, except those that an earlier callback cleared.
   */
  lemma TickFiresTheDue(s: Scheduler, now: Time, due: seq<int>, callbacks: int -> Callback)
    requires WellFormed(s.timers, s.nextId) && IsDueOrder(s.timers, now, due)
    requires forall id :: id in due ==> !callbacks(id).throws
    ensures var events := TickLog(s, now, due, callbacks);
            && TickFrom(s, now, due, callbacks).log == s.log + events
            && (forall e :: e in events && e.Fired? ==> e.data.id in s.timers && e.data == s.timers[e.data.id] &&
                                                        e.data.expiry <= now == e.now)
            && FiresInOrder(events)
            && (forall id :: id in s.timers && s.timers[id].expiry <= now ==> FiresUnlessCleared(events, id))
  {
    DueOrderIsMidTick(s, now, due, callbacks);
    TickAppendsLog(s, now, due, callbacks);
    TickFires(s, now, due, callbacks);
    TickFiresInOrder(s, now, due, callbacks);
    forall id | id in s.timers && s.timers[id].expiry <= now
      ensures FiresUnlessCleared(TickLog(s, now, due, callbacks), id)
    {
      TickFiresUnlessCleared(s, now, due, callbacks, id);
    }
  }

  /**
   * The timers left by a tick without exceptions: those not due and those that are intervals, each unless
   * cleared during the tick, and those created during the tick and not cleared since, as they were created.
   */
  lemma TickLeaves(s: Scheduler, now: Time, due: seq<int>, callbacks: int -> Callback, id: int)
    requires WellFormed(s.timers, s.nextId) && IsDueOrder(s.timers, now, due)
    requires forall d :: d in due ==> !callbacks(d).throws
    ensures var t, events := TickFrom(s, now, due, callbacks), TickLog(s, now, due, callbacks);
            && (id in s.timers && s.timers[id].expiry > now ==>
                  && (id in t.timers <==> Cleared(id) !in events)
                  && (id in t.timers ==> t.timers[id] == s.timers[id]))
            && (id in s.timers && s.timers[id].expiry <= now ==>
                  && (id in t.timers <==> s.timers[id].isInterval && Cleared(id) !in events)
                  && (id in t.timers ==> t.timers[id] == Rescheduled(s.timers[id], callbacks(id).end)))
            && (id !in s.timers && id < s.nextId ==> id !in t.timers)
            && (id >= s.nextId ==> (id in t.timers <==> Live(false, events, id)))
            && LoggedAsSet(t.timers, events)
  {
    DueOrderIsMidTick(s, now, due, callbacks);
    TickSetsAsLogged(s, now, due, callbacks);
    if id >= s.nextId {
      TickOnNew(s, now, due, callbacks, id);
    } else if id in due {
      TickOnDue(s, now, due, callbacks, id);
    } else {
      TickOnIdle(s, now, due, callbacks, id);
    }
  }

  // ---------------------------------------------------------------------------
  // Whole runs
  // ---------------------------------------------------------------------------

  /** The event loop lets JavaScript run or runs a tick. */
  datatype Step = Js(ops: seq<Op>) | Tick(now: Time, due: seq<int>, callbacks: int -> Callback)

  ghost predicate Enabled(s: Scheduler, step: Step) {
    match step
    case Js(_) => true
    case Tick(now, due, callbacks) =>
      IsDueOrder(s.timers, now, due) && forall id :: id in due ==> now <= callbacks(id).end
  }

  function Next(s: Scheduler, step: Step): Scheduler {
    match step
    case Js(ops) => DoOps(s, ops)
    case Tick(now, due, callbacks) => TickFrom(s, now, due, callbacks)
  }

  ghost predicate IsRun(s: Scheduler, steps: seq<Step>, t: Scheduler)
    decreases |steps|
  {
    if steps == [] then s == t else Enabled(s, steps[0]) && IsRun(Next(s, steps[0]), steps[1..], t)
  }

  ghost predicate Reachable(s: Scheduler) {
    exists steps :: IsRun(Scheduler(map[], 1, -1, false, []), steps, s)
  }

  /** Ids are created once, and a timer that is set, or fires, has not been cleared since its creation. */
  ghost predicate HistoryInv(s: Scheduler) {
    && (forall k :: 0 <= k < |s.log| && s.log[k].Created? ==> s.log[k].id < s.nextId)
    && CreatedOnce(s.log)
    && (forall id :: id in s.timers ==> Live(false, s.log, id))
    && (forall j :: 0 <= j < |s.log| && s.log[j].Fired? ==> Live(false, s.log[..j], s.log[j].data.id))
  }

  lemma AppendKeepsFired(a: seq<Event>, b: seq<Event>)
    requires forall j :: 0 <= j < |a| && a[j].Fired? ==> Live(false, a[..j], a[j].data.id)
    requires forall j :: 0 <= j < |b| && b[j].Fired? ==> j == 0 && Live(false, a, b[j].data.id)
    ensures forall j :: 0 <= j < |a + b| && (a + b)[j].Fired? ==> Live(false, (a + b)[..j], (a + b)[j].data.id)
  {
    forall j | 0 <= j < |a + b| && (a + b)[j].Fired? ensures Live(false, (a + b)[..j], (a + b)[j].data.id) {
      if j < |a| {
        assert (a + b)[..j] == a[..j];
      } else {
        assert (a + b)[j] == b[j - |a|];
        assert (a + b)[..|a|] == a;
      }
    }
  }

  ghost predicate CreatedOnce(events: seq<Event>) {
    forall i, j :: 0 <= i < j < |events| && events[i].Created? && events[j].Created? ==> events[i].id != events[j].id
  }

  lemma CreatedOnceSnoc(events: seq<Event>, last: Event)
    requires CreatedOnce(events)
    requires last.Created? ==> forall e :: e in events && e.Created? ==> e.id != last.id
    ensures CreatedOnce(events + [last])
  {
  }

  lemma {:induction false} OpsLogIsDistinct(nextId: int, ops: seq<Op>)
    ensures CreatedOnce(OpsLog(nextId, ops))
    decreases |ops|
  {
    if ops == [] {
    } else {
      var front, seg := OpsLog(nextId, ops[..|ops| - 1]), OpsLog(nextId, ops);
      OpsLogIsDistinct(nextId, ops[..|ops| - 1]);
      OpsLogIsNew(nextId, ops[..|ops| - 1]);
      CreatedOnceSnoc(front, seg[|seg| - 1]);
      assert seg == front + [seg[|seg| - 1]];
    }
  }

  lemma JsKeepsHistoryInv(s: Scheduler, ops: seq<Op>)
    requires WellFormed(s.timers, s.nextId) && HistoryInv(s)
    ensures HistoryInv(DoOps(s, ops))
  {
    var t, seg := DoOps(s, ops), OpsLog(s.nextId, ops);
    OpsEffect(s, ops);
    OpsLogIsNew(s.nextId, ops);
    OpsLogIsDistinct(s.nextId, ops);
    AppendKeepsFired(s.log, seg);
    forall id | id in t.timers ensures Live(false, t.log, id) {
      OpsEffectOn(s, ops, id);
      LiveAppend(false, s.log, seg, id);
      LiveMonotone(id in s.timers, Live(false, s.log, id), seg, id);
    }
  }

  lemma {:induction false} LiveMonotone(a: bool, b: bool, events: seq<Event>, id: int)
    requires a ==> b
    ensures Live(a, events, id) ==> Live(b, events, id)
    decreases |events|
  {
    if events == [] {
    } else {
      LiveMonotone(a, b, events[..|events| - 1], id);
    }
  }

  lemma TurnKeepsLive(s: Scheduler, id: int, now: Time, cb: Callback, other: int)
    requires WellFormed(s.timers, s.nextId) && HistoryInv(s) && other in Turn(s, id, now, cb).timers
    ensures Live(false, s.log + TurnLog(s, id, now, cb), other)
  {
    var seg := TurnLog(s, id, now, cb);
    LiveAppend(false, s.log, seg, other);
    TurnLogShape(s, id, now, cb);
    if other >= s.nextId {
      TurnEffectOnNew(s, id, now, cb, other);
      LiveMonotone(false, Live(false, s.log, other), seg, other);
    } else {
      LiveWithoutCreation(Live(false, s.log, other), seg, other);
      if other != id {
        TurnEffectOnOther(s, id, now, cb, other);
      } else if id in s.timers {
        if cb.throws {
          TurnEffectOfThrow(s, id, now, cb);
        } else {
          TurnEffectOnSelf(s, id, now, cb);
        }
      }
    }
  }

  lemma TurnLogIsDistinct(s: Scheduler, id: int, now: Time, cb: Callback)
    ensures CreatedOnce(TurnLog(s, id, now, cb))
  {
    var ops := OpsLog(s.nextId, cb.ops);
    OpsLogIsDistinct(s.nextId, cb.ops);
    if id in s.timers {
      var seg := TurnLog(s, id, now, cb);
      assert forall i :: 1 <= i < |seg| ==> seg[i] == ops[i - 1];
    }
  }

  lemma TurnKeepsHistoryInv(s: Scheduler, id: int, now: Time, cb: Callback)
    requires WellFormed(s.timers, s.nextId) && HistoryInv(s)
    ensures HistoryInv(Turn(s, id, now, cb))
  {
    var t, seg := Turn(s, id, now, cb), TurnLog(s, id, now, cb);
    TurnEffect(s, id, now, cb);
    TurnLogShape(s, id, now, cb);
    TurnLogIsDistinct(s, id, now, cb);
    AppendKeepsFired(s.log, seg);
    forall other | other in t.timers ensures Live(false, t.log, other) {
      TurnKeepsLive(s, id, now, cb, other);
    }
  }

  /** An interval is not set to expire before its delay has passed since its callback last returned. */
  ghost predicate SetAgainAfter(timers: map<int, TimerData>, e: Event) {
    e.Fired? && e.data.id in timers ==>
      && timers[e.data.id].isInterval && e.data.isInterval
      && timers[e.data.id].intervalMs == e.data.intervalMs
      && timers[e.data.id].expiry >= e.end + TICKS_PER_MS * e.data.intervalMs
  }

  ghost predicate Spaced(e: Event, f: Event) {
    e.Fired? && f.Fired? && e.data.id == f.data.id ==>
      && e.data.isInterval && f.data.isInterval && e.data.intervalMs == f.data.intervalMs
      && f.now >= e.end + TICKS_PER_MS * e.data.intervalMs
  }

  ghost predicate PositiveIntervals(timers: map<int, TimerData>) {
    forall id :: id in timers && timers[id].isInterval ==> timers[id].intervalMs >= 1
  }

  ghost predicate SpacingInv(s: Scheduler) {
    && PositiveIntervals(s.timers)
    && (forall k :: 0 <= k < |s.log| && s.log[k].Fired? ==>
                      s.log[k].data.id < s.nextId && s.log[k].data.expiry <= s.log[k].now <= s.log[k].end)
    && (forall k :: 0 <= k < |s.log| ==> SetAgainAfter(s.timers, s.log[k]))
    && (forall i, j :: 0 <= i < j < |s.log| ==> Spaced(s.log[i], s.log[j]))
  }

  lemma OpKeepsIntervals(s: Scheduler, op: Op)
    requires PositiveIntervals(s.timers)
    ensures PositiveIntervals(DoOp(s, op).timers)
  {
  }

  lemma {:induction false} OpsKeepIntervals(s: Scheduler, ops: seq<Op>)
    requires PositiveIntervals(s.timers)
    ensures PositiveIntervals(DoOps(s, ops).timers)
    decreases |ops|
  {
    if ops == [] {
    } else {
      OpsKeepIntervals(s, ops[..|ops| - 1]);
      OpKeepsIntervals(DoOps(s, ops[..|ops| - 1]), ops[|ops| - 1]);
    }
  }

  lemma JsKeepsSpacingInv(s: Scheduler, ops: seq<Op>)
    requires WellFormed(s.timers, s.nextId) && SpacingInv(s)
    ensures SpacingInv(DoOps(s, ops))
  {
    var t, seg := DoOps(s, ops), OpsLog(s.nextId, ops);
    OpsEffect(s, ops);
    OpsLogIsNew(s.nextId, ops);
    OpsKeepIntervals(s, ops);
    forall k | 0 <= k < |t.log| ensures SetAgainAfter(t.timers, t.log[k]) {
      if k < |s.log| && s.log[k].Fired? {
        OpsEffectOnOld(s, ops, s.log[k].data.id);
      }
    }
  }

  lemma TurnKeepsSetAgain(s: Scheduler, id: int, now: Time, cb: Callback, e: Event)
    requires WellFormed(s.timers, s.nextId) && SpacingInv(s) && now <= cb.end
    requires id in s.timers && s.timers[id].expiry <= now
    requires e in s.log || e == Fired(s.timers[id], now, cb.end, cb.throws)
    ensures SetAgainAfter(Turn(s, id, now, cb).timers, e)
  {
    var t := Turn(s, id, now, cb);
    if e.Fired? && e.data.id in t.timers {
      if e.data.id != id {
        TurnEffectOnOther(s, id, now, cb, e.data.id);
      } else if cb.throws {
        TurnEffectOfThrow(s, id, now, cb);
      } else {
        TurnEffectOnSelf(s, id, now, cb);
      }
    }
  }

  lemma TurnKeepsIntervals(s: Scheduler, id: int, now: Time, cb: Callback)
    requires SpacingInv(s)
    ensures PositiveIntervals(Turn(s, id, now, cb).timers)
  {
    if id in s.timers {
      var started := Started(s, id, now, cb);
      assert PositiveIntervals(started.timers);
      OpsKeepIntervals(started, cb.ops);
    }
  }

  lemma TurnKeepsSpacingInv(s: Scheduler, id: int, now: Time, cb: Callback)
    requires WellFormed(s.timers, s.nextId) && SpacingInv(s) && now <= cb.end
    requires id in s.timers ==> s.timers[id].expiry <= now
    ensures SpacingInv(Turn(s, id, now, cb))
  {
    var t, seg := Turn(s, id, now, cb), TurnLog(s, id, now, cb);
    TurnEffect(s, id, now, cb);
    TurnLogShape(s, id, now, cb);
    TurnKeepsIntervals(s, id, now, cb);
    if id in s.timers {
      forall k | 0 <= k < |t.log| ensures SetAgainAfter(t.timers, t.log[k]) {
        if k < |s.log| {
          TurnKeepsSetAgain(s, id, now, cb, s.log[k]);
        } else if t.log[k].Fired? {
          assert t.log[k] == seg[k - |s.log|];
          TurnKeepsSetAgain(s, id, now, cb, t.log[k]);
        }
      }
      forall i, j | 0 <= i < j < |t.log| ensures Spaced(t.log[i], t.log[j]) {
        if j >= |s.log| && t.log[j].Fired? {
          assert t.log[j] == seg[j - |s.log|];
          assert SetAgainAfter(s.timers, s.log[i]);
        }
      }
    }
  }

  /** The callback of `id` neither has run nor will run before the time `bound`. */
  ghost predicate NotBefore(s: Scheduler, id: int, bound: Time) {
    && (id in s.timers ==> s.timers[id].expiry >= bound)
    && (forall k :: 0 <= k < |s.log| && s.log[k].Fired? && s.log[k].data.id == id ==> s.log[k].now >= bound)
  }

  /** No timer runs before the expiry that it was created with. */
  ghost predicate DelayInv(s: Scheduler) {
    forall c :: 0 <= c < |s.log| && s.log[c].Created? ==>
                  !s.log[c].op.Clear? && NotBefore(s, s.log[c].id, NewTimer(s.log[c].id, s.log[c].op).expiry)
  }

  lemma JsKeepsDelayInv(s: Scheduler, ops: seq<Op>)
    requires WellFormed(s.timers, s.nextId) && HistoryInv(s) && SpacingInv(s) && DelayInv(s)
    ensures DelayInv(DoOps(s, ops))
  {
    var t, seg := DoOps(s, ops), OpsLog(s.nextId, ops);
    OpsEffect(s, ops);
    OpsLogIsNew(s.nextId, ops);
    OpsSetAsLogged(s, ops);
    forall c | 0 <= c < |t.log| && t.log[c].Created?
      ensures !t.log[c].op.Clear? && NotBefore(t, t.log[c].id, NewTimer(t.log[c].id, t.log[c].op).expiry)
    {
      if c < |s.log| {
        assert t.log[c] == s.log[c];
        OpsEffectOnOld(s, ops, s.log[c].id);
      } else {
        assert t.log[c] == seg[c - |s.log|] && seg[c - |s.log|] in seg;
      }
    }
  }

  lemma TurnKeepsNotBefore(s: Scheduler, due: int, now: Time, cb: Callback, id: int, bound: Time)
    requires WellFormed(s.timers, s.nextId) && SpacingInv(s) && NotBefore(s, id, bound) && now <= cb.end
    requires id < s.nextId && (due in s.timers ==> s.timers[due].expiry <= now)
    ensures NotBefore(Turn(s, due, now, cb), id, bound)
  {
    TurnEffect(s, due, now, cb);
    TurnLogShape(s, due, now, cb);
    if id != due {
      TurnEffectOnOther(s, due, now, cb, id);
    } else if id in s.timers {
      if cb.throws {
        TurnEffectOfThrow(s, id, now, cb);
      } else {
        TurnEffectOnSelf(s, id, now, cb);
      }
    }
  }

  lemma TurnKeepsDelayInv(s: Scheduler, due: int, now: Time, cb: Callback)
    requires WellFormed(s.timers, s.nextId) && HistoryInv(s) && SpacingInv(s) && DelayInv(s) && now <= cb.end
    requires due in s.timers ==> s.timers[due].expiry <= now
    ensures DelayInv(Turn(s, due, now, cb))
  {
    var t, seg := Turn(s, due, now, cb), TurnLog(s, due, now, cb);
    TurnEffect(s, due, now, cb);
    TurnLogShape(s, due, now, cb);
    TurnSetsAsLogged(s, due, now, cb);
    forall c | 0 <= c < |t.log| && t.log[c].Created?
      ensures !t.log[c].op.Clear? && NotBefore(t, t.log[c].id, NewTimer(t.log[c].id, t.log[c].op).expiry)
    {
      if c < |s.log| {
        assert t.log[c] == s.log[c];
        TurnKeepsNotBefore(s, due, now, cb, s.log[c].id, NewTimer(s.log[c].id, s.log[c].op).expiry);
      } else {
        assert t.log[c] == seg[c - |s.log|] && seg[c - |s.log|] in seg;
      }
    }
  }

  ghost predicate Inv(s: Scheduler) {
    WellFormed(s.timers, s.nextId) && HistoryInv(s) && SpacingInv(s) && DelayInv(s)
  }

  lemma TurnKeepsInv(s: Scheduler, id: int, now: Time, cb: Callback)
    requires Inv(s) && now <= cb.end
    requires id in s.timers ==> s.timers[id].expiry <= now
    ensures Inv(Turn(s, id, now, cb))
  {
    TurnEffect(s, id, now, cb);
    TurnKeepsHistoryInv(s, id, now, cb);
    TurnKeepsSpacingInv(s, id, now, cb);
    TurnKeepsDelayInv(s, id, now, cb);
  }

  /** The ids that still have their turn: each is known, gone or due, and its callback returns later. */
  ghost predicate Upcoming(s: Scheduler, now: Time, due: seq<int>, callbacks: int -> Callback) {
    && Distinct(due)
    && forall i :: 0 <= i < |due| ==>
         due[i] < s.nextId && (due[i] in s.timers ==> s.timers[due[i]].expiry <= now) && now <= callbacks(due[i]).end
  }

  lemma TurnKeepsUpcoming(s: Scheduler, now: Time, due: seq<int>, callbacks: int -> Callback)
    requires WellFormed(s.timers, s.nextId) && due != [] && Upcoming(s, now, due, callbacks)
    ensures Upcoming(Turn(s, due[0], now, callbacks(due[0])), now, due[1..], callbacks)
  {
    var t := Turn(s, due[0], now, callbacks(due[0]));
    TurnEffect(s, due[0], now, callbacks(due[0]));
    forall i | 0 <= i < |due[1..]|
      ensures due[1..][i] < t.nextId
      ensures due[1..][i] in t.timers ==> t.timers[due[1..][i]].expiry <= now
      ensures now <= callbacks(due[1..][i]).end
    {
      assert due[1..][i] == due[i + 1];
      TurnEffectOnOther(s, due[0], now, callbacks(due[0]), due[i + 1]);
    }
  }

  lemma {:induction false} TickKeepsInv(s: Scheduler, now: Time, due: seq<int>, callbacks: int -> Callback)
    requires Inv(s) && Upcoming(s, now, due, callbacks)
    ensures Inv(TickFrom(s, now, due, callbacks))
    decreases |due|
  {
    if due == [] {
    } else {
      var cb := callbacks(due[0]);
      TurnKeepsInv(s, due[0], now, cb);
      TurnKeepsUpcoming(s, now, due, callbacks);
      if !Aborts(s, due[0], cb) {
        TickKeepsInv(Turn(s, due[0], now, cb), now, due[1..], callbacks);
      }
    }
  }

  lemma StepKeepsInv(s: Scheduler, step: Step)
    requires Inv(s) && Enabled(s, step)
    ensures Inv(Next(s, step))
  {
    match step
    case Js(ops) =>
      OpsEffect(s, ops);
      JsKeepsHistoryInv(s, ops);
      JsKeepsSpacingInv(s, ops);
      JsKeepsDelayInv(s, ops);
    case Tick(now, due, callbacks) =>
      TickKeepsInv(s, now, due, callbacks);
  }

  lemma {:induction false} RunKeepsInv(s: Scheduler, steps: seq<Step>, t: Scheduler)
    requires Inv(s) && IsRun(s, steps, t)
    ensures Inv(t)
    decreases |steps|
  {
    if steps == [] {
    } else {
      StepKeepsInv(s, steps[0]);
      RunKeepsInv(Next(s, steps[0]), steps[1..], t);
    }
  }

  lemma ReachableInv(s: Scheduler)
    requires Reachable(s)
    ensures Inv(s)
  {
    var steps :| IsRun(Scheduler(map[], 1, -1, false, []), steps, s);
    RunKeepsInv(Scheduler(map[], 1, -1, false, []), steps, s);
  }

  /**
   * Cancellation is for good: once clearTimeout has returned for a timer that was set, its callback never
   * runs again, whether it was idle, already chosen for the tick, or running.
   */
  lemma ClearedNeverFires(s: Scheduler, id: int, created: nat, cleared: nat, later: nat)
    requires Reachable(s) && created < cleared < later < |s.log|
    requires Creates(s.log[created], id) && s.log[cleared] == Cleared(id)
    ensures !(s.log[later].Fired? && s.log[later].data.id == id)
    ensures id !in s.timers
  {
    ReachableInv(s);
    if id in s.timers {
      LiveSince(s.log, id, cleared);
    }
    if s.log[later].Fired? && s.log[later].data.id == id {
      LiveSince(s.log[..later], id, cleared);
    }
  }

  /**
   * Over a whole run no callback is called early; a callback that is called again belongs to an interval,
   * and its delay has passed since it last returned.
   */
  lemma FiringsAreSpaced(s: Scheduler, i: nat, j: nat)
    requires Reachable(s) && i < j < |s.log|
    requires s.log[i].Fired? && s.log[j].Fired? && s.log[i].data.id == s.log[j].data.id
    ensures s.log[j].data.isInterval && s.log[j].data.expiry <= s.log[j].now
    ensures s.log[j].now >= s.log[i].end + TICKS_PER_MS * s.log[j].data.intervalMs
    ensures s.log[i].end >= s.log[i].now
  {
    ReachableInv(s);
    assert Spaced(s.log[i], s.log[j]);
  }

  /**
   * Over every run, the callback of a timer does not run before its delay has passed since the call that set
   * it, be it made by a script or by another timer's callback during a tick; a negative delay counts as 0, and
   * that of an interval as at least 1.
   */
  lemma NeverBeforeTheDelay(s: Scheduler, created: nat, fired: nat)
    requires Reachable(s) && created < |s.log| && fired < |s.log|
    requires s.log[fired].Fired? && Creates(s.log[created], s.log[fired].data.id)
    ensures !s.log[created].op.Clear?
    ensures s.log[fired].now >= s.log[created].op.at + TICKS_PER_MS * s.log[created].op.delay
    ensures s.log[fired].now >= s.log[created].op.at
    ensures s.log[created].op.SetInterval? ==> s.log[fired].now >= s.log[created].op.at + TICKS_PER_MS
  {
    ReachableInv(s);
    assert NotBefore(s, s.log[created].id, NewTimer(s.log[created].id, s.log[created].op).expiry);
  }
}
