/** setTimeout, setInterval, clearTimeout and the scheduler's tick, whose callbacks may call the others. */
module Timers {
  import opened SteadyClock

  datatype TimerData = TimerData(id: int, expiry: Time, isInterval: bool, intervalMs: int)

  /** A call that JavaScript makes; `at` is what the clock says at that moment. */
  datatype Op = SetTimeout(delay: int, at: Time) | SetInterval(delay: int, at: Time) | Clear(id: int)

  /** What a callback does: its calls, when it returns, and whether by an exception. */
  datatype Callback = Callback(ops: seq<Op>, end: Time, throws: bool)

  datatype Event =
    | Created(id: int, op: Op)
    | Cleared(id: int)
    | Fired(data: TimerData, now: Time, end: Time, threw: bool)

  datatype Scheduler = Scheduler(
    timers: map<int, TimerData>,
    nextId: int,
    runningId: int,
    runningCleared: bool,
    log: seq<Event>)

  // ---------------------------------------------------------------------------
  // What each call does
  // ---------------------------------------------------------------------------

  function NewTimer(id: int, op: Op): TimerData
    requires !op.Clear?
  {
    match op
    case SetTimeout(delay, at) =>
      TimerData(id, at + TICKS_PER_MS * (if delay < 0 then 0 else delay), false, 0)
    case SetInterval(delay, at) =>
      var ms := if delay < 1 then 1 else delay;
      TimerData(id, at + TICKS_PER_MS * ms, true, ms)
  }

  function DoOp(s: Scheduler, op: Op): Scheduler {
    match op
    case Clear(id) =>
      s.(timers := s.timers - {id},
         runningCleared := s.runningCleared || id == s.runningId,
         log := s.log + [Cleared(id)])
    case _ =>
      s.(timers := s.timers[s.nextId := NewTimer(s.nextId, op)],
         nextId := s.nextId + 1,
         log := s.log + [Created(s.nextId, op)])
  }

  function DoOps(s: Scheduler, ops: seq<Op>): Scheduler
    decreases |ops|
  {
    if ops == [] then s else DoOp(DoOps(s, ops[..|ops| - 1]), ops[|ops| - 1])
  }

  /** Calling the callback of a timer that has been taken out of the map. */
  function Started(s: Scheduler, id: int, now: Time, cb: Callback): Scheduler
    requires id in s.timers
  {
    s.(timers := s.timers - {id}, runningId := id, runningCleared := false,
       log := s.log + [Fired(s.timers[id], now, cb.end, cb.throws)])
  }

  function Rescheduled(data: TimerData, end: Time): TimerData {
    data.(expiry := end + TICKS_PER_MS * data.intervalMs)
  }

  /** One turn of the loop over the due timers: a timer that an earlier callback cleared is skipped. */
  function Turn(s: Scheduler, id: int, now: Time, cb: Callback): Scheduler {
    if id !in s.timers then s
    else
      var data := s.timers[id];
      var ran := DoOps(Started(s, id, now, cb), cb.ops).(runningId := -1);
      if cb.throws || !data.isInterval || ran.runningCleared then ran
      else ran.(timers := ran.timers[data.id := Rescheduled(data, cb.end)])
  }

  /** The turn of `id` ends the tick. */
  predicate Aborts(s: Scheduler, id: int, cb: Callback) {
    id in s.timers && cb.throws
  }

  /** The rest of a tick; `callbacks` says what each due timer's callback does when called. */
  function TickFrom(s: Scheduler, now: Time, due: seq<int>, callbacks: int -> Callback): Scheduler
    decreases |due|
  {
    if due == [] then s
    else
      var s' := Turn(s, due[0], now, callbacks(due[0]));
      if Aborts(s, due[0], callbacks(due[0])) then s' else TickFrom(s', now, due[1..], callbacks)
  }

  /** A callback of the rest of the tick throws. */
  predicate TickAborts(s: Scheduler, now: Time, due: seq<int>, callbacks: int -> Callback)
    decreases |due|
  {
    due != [] &&
    (Aborts(s, due[0], callbacks(due[0])) ||
     TickAborts(Turn(s, due[0], now, callbacks(due[0])), now, due[1..], callbacks))
  }

  ghost predicate Distinct(ids: seq<int>) {
    forall i, j :: 0 <= i < j < |ids| ==> ids[i] != ids[j]
  }

  ghost predicate SortedByExpiry(timers: map<int, TimerData>, ids: seq<int>) {
    && (forall i :: 0 <= i < |ids| ==> ids[i] in timers)
    && (forall i, j :: 0 <= i < j < |ids| ==> timers[ids[i]].expiry <= timers[ids[j]].expiry)
  }

  /** The due timers in the order of their expiry; timers with equal expiry come in any order. */
  ghost predicate IsDueOrder(timers: map<int, TimerData>, now: Time, due: seq<int>) {
    && Distinct(due)
    && SortedByExpiry(timers, due)
    && (forall id :: id in timers && timers[id].expiry <= now <==> id in due)
  }

  /** Timers are filed under their own id, and ids are given out in ascending order from 1. */
  ghost predicate WellFormed(timers: map<int, TimerData>, nextId: int) {
    1 <= nextId && forall id :: id in timers ==> 1 <= id < nextId && timers[id].id == id
  }

  // ---------------------------------------------------------------------------
  // The scheduler
  // ---------------------------------------------------------------------------

  class Timer {
    var timers: map<int, TimerData>
    var nextTimerId: int
    var runningTimerId: int
    var runningTimerCleared: bool
    ghost var log: seq<Event>

    ghost function View(): Scheduler
      reads this
    {
      Scheduler(timers, nextTimerId, runningTimerId, runningTimerCleared, log)
    }

    constructor ()
      ensures View() == Scheduler(map[], 1, -1, false, [])
    {
      timers, nextTimerId, runningTimerId, runningTimerCleared := map[], 1, -1, false;
      log := [];
    }

    method SetTimeout(delay: int, at: Time) returns (id: int)
      modifies this
      ensures View() == DoOp(old(View()), Op.SetTimeout(delay, at))
      ensures id == old(nextTimerId)
    {
      var ms := delay;
      if ms < 0 {
        ms := 0;
      }
      id := nextTimerId;
      nextTimerId := nextTimerId + 1;
      timers := timers[id := TimerData(id, at + TICKS_PER_MS * ms, false, 0)];
      log := log + [Created(id, Op.SetTimeout(delay, at))];
    }

    method SetInterval(delay: int, at: Time) returns (id: int)
      modifies this
      ensures View() == DoOp(old(View()), Op.SetInterval(delay, at))
      ensures id == old(nextTimerId)
    {
      var ms := delay;
      if ms < 1 {
        ms := 1;
      }
      id := nextTimerId;
      nextTimerId := nextTimerId + 1;
      timers := timers[id := TimerData(id, at + TICKS_PER_MS * ms, true, ms)];
      log := log + [Created(id, Op.SetInterval(delay, at))];
    }

    method ClearTimeout(id: int)
      modifies this
      ensures View() == DoOp(old(View()), Clear(id))
    {
      if id == runningTimerId {
        runningTimerCleared := true;
      }
      timers := timers - {id};
      log := log + [Cleared(id)];
    }

    /** JavaScript making its calls one after the other. */
    method RunScript(ops: seq<Op>)
      modifies this
      ensures View() == DoOps(old(View()), ops)
    {
      for i := 0 to |ops|
        invariant View() == DoOps(old(View()), ops[..i])
      {
        assert ops[..i + 1][..i] == ops[..i];
        match ops[i]
        case SetTimeout(delay, at) => var _ := SetTimeout(delay, at);
        case SetInterval(delay, at) => var _ := SetInterval(delay, at);
        case Clear(id) => ClearTimeout(id);
      }
      assert ops[..|ops|] == ops;
    }

    /** Sorting, one id at a time; which of several ids with equal expiry comes first does not matter. */
    method InsertByExpiry(due: seq<int>, id: int) returns (r: seq<int>)
      requires id in timers && id !in due && Distinct(due) && SortedByExpiry(timers, due)
      ensures Distinct(r) && SortedByExpiry(timers, r)
      ensures forall d :: d in r <==> d in due || d == id
    {
      var k := |due|;
      while k > 0 && timers[id].expiry < timers[due[k - 1]].expiry
        invariant 0 <= k <= |due|
        invariant k < |due| ==> timers[id].expiry < timers[due[k]].expiry
      {
        k := k - 1;
      }
      r := due[..k] + [id] + due[k..];
      InsertKeepsOrder(timers, due, id, k);
    }

    /** The ids that are due, sorted by expiry; the map is visited in ascending order of ids. */
    method DueTimers(now: Time) returns (due: seq<int>)
      requires WellFormed(timers, nextTimerId)
      ensures IsDueOrder(timers, now, due)
    {
      due := [];
      for id := 1 to nextTimerId
        invariant Distinct(due) && SortedByExpiry(timers, due)
        invariant forall d :: d in timers && d < id && timers[d].expiry <= now <==> d in due
      {
        if id in timers && timers[id].expiry <= now {
          due := InsertByExpiry(due, id);
        }
      }
    }

    /** Takes a timer out of the map and calls it; `ok` is false if the callback threw. */
    method RunTurn(id: int, now: Time, callback: Callback) returns (ok: bool)
      modifies this
      ensures View() == Turn(old(View()), id, now, callback)
      ensures ok == !Aborts(old(View()), id, callback)
    {
      if id !in timers {
        return true;
      }
      var data := timers[id];
      timers := timers - {id};
      runningTimerId := id;
      runningTimerCleared := false;

      log := log + [Fired(data, now, callback.end, callback.throws)];
      RunScript(callback.ops);

      runningTimerId := -1;
      if callback.throws {
        return false;
      }
      if data.isInterval && !runningTimerCleared {
        timers := timers[data.id := data.(expiry := callback.end + TICKS_PER_MS * data.intervalMs)];
      }
      return true;
    }

    /** Runs the due timers; `active` says that timers are left and no callback threw. */
    method Tick(now: Time, callbacks: int -> Callback) returns (active: bool, ghost due: seq<int>)
      requires WellFormed(timers, nextTimerId)
      modifies this
      ensures IsDueOrder(old(timers), now, due)
      ensures View() == TickFrom(old(View()), now, due, callbacks)
      ensures active <==> timers != map[] && !TickAborts(old(View()), now, due, callbacks)
    {
      if timers == map[] {
        return false, [];
      }
      var toRun := DueTimers(now);
      due := toRun;
      var i := 0;
      while i < |toRun|
        invariant 0 <= i <= |toRun|
        invariant TickFrom(old(View()), now, toRun, callbacks) == TickFrom(View(), now, toRun[i..], callbacks)
        invariant TickAborts(old(View()), now, toRun, callbacks) == TickAborts(View(), now, toRun[i..], callbacks)
      {
        assert toRun[i..][1..] == toRun[i + 1..];
        var ok := RunTurn(toRun[i], now, callbacks(toRun[i]));
        i := i + 1;
        if !ok {
          return false, due;
        }
      }
      active := timers != map[];
    }

    method HasActiveTimers() returns (active: bool)
      ensures active <==> timers != map[]
    {
      active := timers != map[];
    }

    /** The time in whole milliseconds until the first timer expires; 0 if none is set or one is due. */
    method GetNextDelay(now: Time) returns (ms: int)
      requires WellFormed(timers, nextTimerId)
      ensures timers == map[] || (exists id :: id in timers && timers[id].expiry <= now) ==> ms == 0
      ensures timers != map[] && (forall id :: id in timers ==> timers[id].expiry > now) ==>
                && 0 <= ms
                && (forall id :: id in timers ==> now + TICKS_PER_MS * ms <= timers[id].expiry)
                && (exists id :: id in timers && timers[id].expiry < now + TICKS_PER_MS * (ms + 1))
    {
      if timers == map[] {
        return 0;
      }
      var first := -1;
      for id := 1 to nextTimerId
        invariant first == -1 ==> forall d :: d in timers ==> d >= id
        invariant first != -1 ==> first in timers
        invariant first != -1 ==> forall d :: d in timers && d < id ==> timers[first].expiry <= timers[d].expiry
      {
        if id in timers && (first == -1 || timers[id].expiry < timers[first].expiry) {
          first := id;
        }
      }
      assert first != -1;
      var minExpiry := timers[first].expiry;
      if minExpiry <= now {
        return 0;
      }
      ms := (minExpiry - now) / TICKS_PER_MS;
    }
  }

  lemma InsertKeepsOrder(timers: map<int, TimerData>, due: seq<int>, id: int, k: nat)
    requires id in timers && id !in due && Distinct(due) && SortedByExpiry(timers, due) && k <= |due|
    requires k > 0 ==> timers[due[k - 1]].expiry <= timers[id].expiry
    requires k < |due| ==> timers[id].expiry <= timers[due[k]].expiry
    ensures var r := due[..k] + [id] + due[k..];
            Distinct(r) && SortedByExpiry(timers, r) && forall d :: d in r <==> d in due || d == id
  {
    var r := due[..k] + [id] + due[k..];
    assert forall i :: 0 <= i < |r| ==> r[i] == if i < k then due[i] else if i == k then id else due[i - 1];
    forall i, j | 0 <= i < j < |r|
      ensures r[i] != r[j] && r[i] in timers && r[j] in timers && timers[r[i]].expiry <= timers[r[j]].expiry
    {
      var a, b := if i < k then i else i - 1, if j < k then j else j - 1;
      assert i != k ==> r[i] == due[a];
      assert j != k ==> r[j] == due[b];
    }
    forall d ensures d in r <==> d in due || d == id {
      SplitMembers(due, k, d);
    }
  }

  lemma SplitMembers(s: seq<int>, k: nat, d: int)
    requires k <= |s|
    ensures d in s <==> d in s[..k] || d in s[k..]
  {
    assert s == s[..k] + s[k..];
  }
}
