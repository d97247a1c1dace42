/** The iterator of `events.on`: buffered events meet waiting promises. */
module AsyncIterators {
  import opened EventEmitters
  import opened Options

  type Args = seq<int>

  /** What a promise is settled with; the error of a rejection may be undefined. */
  datatype Outcome = Yield(args: Args) | Done | Reject(error: Option<int>)

  datatype Settlement = Settlement(promise: nat, outcome: Outcome)

  datatype Iterator = Iterator(
    buffered: seq<Args>,
    resolvers: seq<nat>,            // promises of `next` that wait for an event
    error: Option<int>,
    done: bool,
    promises: nat,                  // promises made so far; their number is the next one's identity
    settlements: seq<Settlement>,   // history: calls of Resolve and Reject
    nexts: seq<nat>,                // history: the promises that `next` returned
    accepted: seq<Args>,            // history: the events that arrived before closing
    failed: bool)                   // history: an error has arrived

  const FRESH := Iterator([], [], None, false, 0, [], [], [], false)

  // ---------------------------------------------------------------------------
  // What each function does
  // ---------------------------------------------------------------------------

  /** Makes a promise, and settles it at once if there is an outcome. */
  function Promise(s: Iterator, outcome: Option<Outcome>): Iterator {
    s.(promises := s.promises + 1,
       settlements := s.settlements + match outcome {
         case Some(o) => [Settlement(s.promises, o)]
         case None => []
       })
  }

  function DoNext(s: Iterator): Iterator {
    var s' := s.(nexts := s.nexts + [s.promises]);
    match s.error
    case Some(_) => Promise(s', Some(Reject(s.error)))
    case None =>
      if s.buffered != [] then Promise(s'.(buffered := s.buffered[1..]), Some(Yield(s.buffered[0])))
      else if s.done then Promise(s', Some(Done))
      else Promise(s'.(resolvers := s.resolvers + [s.promises]), None)
  }

  /** All waiting promises, first to last, are settled alike. */
  function SettleAll(settlements: seq<Settlement>, waiting: seq<nat>, outcome: Outcome): seq<Settlement> {
    settlements + seq(|waiting|, i requires 0 <= i < |waiting| => Settlement(waiting[i], outcome))
  }

  function DoReturn(s: Iterator): Iterator {
    Promise(s.(done := true, settlements := SettleAll(s.settlements, s.resolvers, Done), resolvers := []), Some(Done))
  }

  function DoArrive(s: Iterator, args: Args): Iterator {
    if s.done then s
    else
      var s' := s.(accepted := s.accepted + [args]);
      if s.resolvers != [] then
        s'.(resolvers := s.resolvers[1..], settlements := s.settlements + [Settlement(s.resolvers[0], Yield(args))])
      else s'.(buffered := s.buffered + [args])
  }

  function DoFail(s: Iterator, error: Option<int>): Iterator {
    DoReturn(s.(error := error, settlements := SettleAll(s.settlements, s.resolvers, Reject(error)),
                resolvers := [], failed := true))
  }

  // ---------------------------------------------------------------------------
  // The iterator object
  // ---------------------------------------------------------------------------

  /** The store after `events.on` has registered the two listeners; "error" itself is not watched twice. */
  function Registered(t: Table, name: EventName, listener: Listener, errorListener: Listener): Table {
    var t' := Add(t, name, listener, false);
    if name == ERROR then t' else Add(t', ERROR, errorListener, false)
  }

  /** The "newListener" calls that registering queues. */
  function RegisterNotices(t: Table, name: EventName, listener: Listener, errorListener: Listener): seq<Call> {
    var first := Calls(Listeners(t, NEW_LISTENER), [NameArg(name), ListenerArg(listener)]);
    if name == ERROR then first
    else
      var t' := Add(t, name, listener, false);
      first + Calls(Listeners(t', NEW_LISTENER), [NameArg(ERROR), ListenerArg(errorListener)])
  }

  function Unregistered(t: Table, name: EventName, listener: Listener, errorListener: Listener): Table {
    Remove(Remove(t, name, listener), ERROR, errorListener)
  }

  /** The "removeListener" calls that unregistering queues. */
  ghost function UnregisterNotices(t: Table, name: EventName, listener: Listener, errorListener: Listener): seq<Call> {
    NoticesOfRemoval(t, name, listener) + NoticesOfRemoval(Remove(t, name, listener), ERROR, errorListener)
  }

  class AsyncIterator {
    const emitter: EventEmitter
    const name: EventName
    const listener: Listener
    const errorListener: Listener
    var queue: seq<Args>
    var resolvers: seq<nat>
    var error: Option<int>
    var done: bool
    var promises: nat
    var settlements: seq<Settlement>
    ghost var nexts: seq<nat>
    ghost var accepted: seq<Args>
    ghost var failed: bool

    ghost function View(): Iterator
      reads this
    {
      Iterator(queue, resolvers, error, done, promises, settlements, nexts, accepted, failed)
    }

    /** `events.on` */
    constructor (emitter: EventEmitter, name: EventName, listener: Listener, errorListener: Listener)
      requires emitter.Valid()
      modifies emitter, emitter.queue
      ensures this.emitter == emitter && this.name == name
      ensures this.listener == listener && this.errorListener == errorListener
      ensures View() == FRESH && emitter.Valid()
      ensures emitter.View() == Registered(old(emitter.View()), name, listener, errorListener)
      ensures emitter.queue.queue == old(emitter.queue.queue) +
              Tasks(RegisterNotices(old(emitter.View()), name, listener, errorListener))
    {
      hide Add, Calls, Tasks, Listeners;
      ghost var t := emitter.View();
      this.emitter, this.name, this.listener, this.errorListener := emitter, name, listener, errorListener;
      queue, resolvers, error, done, promises, settlements := [], [], None, false, 0, [];
      nexts, accepted, failed := [], [], false;
      new;
      emitter.AddListener(name, listener, false);
      if name != ERROR {
        emitter.AddListener(ERROR, errorListener, false);
        TasksAppend(Calls(Listeners(t, NEW_LISTENER), [NameArg(name), ListenerArg(listener)]),
                    Calls(Listeners(Add(t, name, listener, false), NEW_LISTENER),
                          [NameArg(ERROR), ListenerArg(errorListener)]));
      }
    }

    method NewPromise() returns (p: nat)
      modifies this`promises
      ensures p == old(promises) && promises == p + 1
    {
      p := promises;
      promises := promises + 1;
    }

    method Settle(p: nat, outcome: Outcome)
      modifies this`settlements
      ensures settlements == old(settlements) + [Settlement(p, outcome)]
    {
      settlements := settlements + [Settlement(p, outcome)];
    }

    method Next() returns (p: nat)
      modifies this
      ensures View() == DoNext(old(View())) && p == old(promises)
    {
      nexts := nexts + [promises];
      p := NewPromise();
      if error != None {
        Settle(p, Reject(error));
        return;
      }
      if |queue| > 0 {
        var value := queue[0];
        queue := queue[1..];
        Settle(p, Yield(value));
        return;
      }
      if done {
        Settle(p, Done);
        return;
      }
      resolvers := resolvers + [p];
    }

    /** Settles all waiting promises. */
    method Flush(outcome: Outcome)
      modifies this`settlements, this`resolvers
      ensures settlements == SettleAll(old(settlements), old(resolvers), outcome)
      ensures resolvers == []
    {
      for i := 0 to |resolvers|
        invariant resolvers == old(resolvers)
        invariant settlements == SettleAll(old(settlements), resolvers[..i], outcome)
      {
        Settle(resolvers[i], outcome);
      }
      assert resolvers[..|resolvers|] == resolvers;
      resolvers := [];
    }

    method Unregister()
      requires emitter.Valid()
      modifies emitter, emitter.queue
      ensures emitter.Valid()
      ensures emitter.View() == Unregistered(old(emitter.View()), name, listener, errorListener)
      ensures emitter.queue.queue == old(emitter.queue.queue) +
              Tasks(UnregisterNotices(old(emitter.View()), name, listener, errorListener))
    {
      hide Remove;
      ghost var t := emitter.View();
      var _ := emitter.RemoveListener(name, listener);
      var _ := emitter.RemoveListener(ERROR, errorListener);
      TasksAppend(NoticesOfRemoval(t, name, listener),
                  NoticesOfRemoval(Remove(t, name, listener), ERROR, errorListener));
    }

    method Return() returns (p: nat)
      requires emitter.Valid()
      modifies this, emitter, emitter.queue
      ensures View() == DoReturn(old(View())) && p == old(promises)
      ensures emitter.Valid()
      ensures emitter.View() == Unregistered(old(emitter.View()), name, listener, errorListener)
      ensures emitter.queue.queue == old(emitter.queue.queue) +
              Tasks(UnregisterNotices(old(emitter.View()), name, listener, errorListener))
    {
      hide Unregistered, UnregisterNotices;
      done := true;
      Unregister();
      Flush(Done);
      p := NewPromise();
      Settle(p, Done);
    }

    method OnListener(args: Args)
      modifies this
      ensures View() == DoArrive(old(View()), args)
    {
      if done {
        return;
      }
      accepted := accepted + [args];
      if |resolvers| > 0 {
        var p := resolvers[0];
        resolvers := resolvers[1..];
        Settle(p, Yield(args));
        return;
      }
      queue := queue + [args];
    }

    method OnErrorListener(err: Option<int>)
      requires emitter.Valid()
      modifies this, emitter, emitter.queue
      ensures View() == DoFail(old(View()), err)
      ensures emitter.Valid()
      ensures emitter.View() == Unregistered(old(emitter.View()), name, listener, errorListener)
      ensures emitter.queue.queue == old(emitter.queue.queue) +
              Tasks(UnregisterNotices(old(emitter.View()), name, listener, errorListener))
    {
      error := err;
      failed := true;
      Flush(Reject(err));
      var _ := Return();
    }
  }

  /** A listener that no registered one is matched by. */
  ghost predicate Unmatched(t: Table, l: Listener) {
    forall e :: e in t ==> !HasMatch(t[e], l)
  }

  /** `events.on` listens: behind all others to its event, and to "error" unless that is its event. */
  lemma RegisteredListens(t: Table, name: EventName, listener: Listener, errorListener: Listener, event: EventName)
    ensures Listeners(Registered(t, name, listener, errorListener), event) ==
            if event == name then Listeners(t, name) + [listener]
            else if event == ERROR then Listeners(t, ERROR) + [errorListener]
            else Listeners(t, event)
  {
  }

  /** Closing the iterator takes out exactly what `events.on` put in. */
  lemma ClosingRestoresTheStore(t: Table, name: EventName, listener: Listener, errorListener: Listener)
    requires NoEmptyList(t) && Unmatched(t, listener) && Unmatched(t, errorListener)
    requires !Matches(listener, errorListener) && !Matches(errorListener, listener)
    ensures Unregistered(Registered(t, name, listener, errorListener), name, listener, errorListener) == t
  {
    var t1 := Add(t, name, listener, false);
    if name == ERROR {
      RemoveAfterAppend(t, name, listener);
      RemoveUnmatched(t, ERROR, errorListener);
    } else {
      assert Listeners(t1, ERROR) == Listeners(t, ERROR);
      RemoveAfterAppend(t, name, listener);
      RemoveAfterAppend(t, ERROR, errorListener);
      assert Remove(Registered(t, name, listener, errorListener), name, listener)
          == Add(t, ERROR, errorListener, false) by {
        OtherEvent(t, name, listener, errorListener);
      }
    }
  }

  lemma RemoveUnmatched(t: Table, event: EventName, l: Listener)
    requires NoEmptyList(t) && Unmatched(t, l)
    ensures Remove(t, event, l) == t
  {
    if event in t {
      NoMatchNoRemoval(t[event], l);
    }
  }

  lemma OtherEvent(t: Table, name: EventName, listener: Listener, errorListener: Listener)
    requires NoEmptyList(t) && Unmatched(t, listener) && name != ERROR
    ensures Remove(Registered(t, name, listener, errorListener), name, listener) == Add(t, ERROR, errorListener, false)
  {
    var ls := Listeners(t, name);
    RemoveFirstOfAppend(ls, listener);
    assert Registered(t, name, listener, errorListener)[name] == ls + [listener];
  }

  // ---------------------------------------------------------------------------
  // Whole runs
  // ---------------------------------------------------------------------------

  datatype Op = Next | Return | Arrive(args: Args) | Fail(error: Option<int>)

  function Step(s: Iterator, op: Op): Iterator {
    match op
    case Next => DoNext(s)
    case Return => DoReturn(s)
    case Arrive(args) => DoArrive(s, args)
    case Fail(error) => DoFail(s, error)
  }

  function Run(ops: seq<Op>): Iterator
    decreases |ops|
  {
    if ops == [] then FRESH else Step(Run(ops[..|ops| - 1]), ops[|ops| - 1])
  }

  predicate IsSettled(settlements: seq<Settlement>, p: nat) {
    exists i :: 0 <= i < |settlements| && settlements[i].promise == p
  }

  ghost predicate SettledOnce(settlements: seq<Settlement>) {
    forall i, j :: 0 <= i < j < |settlements| ==> settlements[i].promise != settlements[j].promise
  }

  /** Waiting promises are made, distinct and not settled. */
  ghost predicate Waiting(resolvers: seq<nat>, settlements: seq<Settlement>, promises: nat) {
    && (forall i :: 0 <= i < |resolvers| ==> resolvers[i] < promises && !IsSettled(settlements, resolvers[i]))
    && (forall i, j :: 0 <= i < j < |resolvers| ==> resolvers[i] != resolvers[j])
  }

  ghost predicate Inv(s: Iterator) {
    && (s.buffered == [] || s.resolvers == [])
    && (s.done || s.error != None ==> s.resolvers == [])
    && (forall i :: 0 <= i < |s.settlements| ==> s.settlements[i].promise < s.promises)
    && SettledOnce(s.settlements)
    && Waiting(s.resolvers, s.settlements, s.promises)
    && AllSettledOrWaiting(s.settlements, s.resolvers, s.promises)
  }

  /** No promise is dropped: each one made is settled or still waiting. */
  ghost predicate AllSettledOrWaiting(settlements: seq<Settlement>, resolvers: seq<nat>, promises: nat) {
    forall p :: 0 <= p < promises ==> IsSettled(settlements, p) || p in resolvers
  }

  lemma SettleAllOnce(settlements: seq<Settlement>, waiting: seq<nat>, outcome: Outcome, promises: nat)
    requires SettledOnce(settlements) && Waiting(waiting, settlements, promises)
    ensures SettledOnce(SettleAll(settlements, waiting, outcome))
  {
    var all := SettleAll(settlements, waiting, outcome);
    forall i, j | 0 <= i < j < |all| ensures all[i].promise != all[j].promise {
      if i < |settlements| <= j {
        assert !IsSettled(settlements, waiting[j - |settlements|]);
      }
    }
  }

  lemma StillSettled(settlements: seq<Settlement>, more: seq<Settlement>, p: nat)
    requires settlements <= more && IsSettled(settlements, p)
    ensures IsSettled(more, p)
  {
    var i :| 0 <= i < |settlements| && settlements[i].promise == p;
    assert more[i].promise == p;
  }

  lemma WaitingSettled(settlements: seq<Settlement>, waiting: seq<nat>, outcome: Outcome, p: nat)
    requires p in waiting
    ensures IsSettled(SettleAll(settlements, waiting, outcome), p)
  {
    var i :| 0 <= i < |waiting| && waiting[i] == p;
    assert SettleAll(settlements, waiting, outcome)[|settlements| + i].promise == p;
  }

  /** After all that wait have been settled, every promise is settled. */
  lemma SettleAllSettles(settlements: seq<Settlement>, waiting: seq<nat>, outcome: Outcome, promises: nat)
    requires AllSettledOrWaiting(settlements, waiting, promises)
    ensures AllSettledOrWaiting(SettleAll(settlements, waiting, outcome), [], promises)
  {
    forall p | 0 <= p < promises ensures IsSettled(SettleAll(settlements, waiting, outcome), p) {
      if p in waiting {
        WaitingSettled(settlements, waiting, outcome, p);
      } else {
        StillSettled(settlements, SettleAll(settlements, waiting, outcome), p);
      }
    }
  }

  /** A new promise is settled at once or waits. */
  lemma PromiseKeepsAll(s: Iterator, outcome: Option<Outcome>, resolvers: seq<nat>)
    requires AllSettledOrWaiting(s.settlements, s.resolvers, s.promises)
    requires resolvers == if outcome.Some? then s.resolvers else s.resolvers + [s.promises]
    ensures AllSettledOrWaiting(Promise(s, outcome).settlements, resolvers, s.promises + 1)
  {
    var more := Promise(s, outcome).settlements;
    forall p | 0 <= p < s.promises + 1 ensures IsSettled(more, p) || p in resolvers {
      if p == s.promises {
        assert outcome.Some? ==> more[|s.settlements|].promise == p;
        assert outcome.None? ==> resolvers[|s.resolvers|] == p;
      } else if IsSettled(s.settlements, p) {
        StillSettled(s.settlements, more, p);
      } else {
        var i :| 0 <= i < |s.resolvers| && s.resolvers[i] == p;
        assert resolvers[i] == p;
      }
    }
  }

  lemma ReturnKeepsInv(s: Iterator)
    requires Inv(s)
    ensures Inv(DoReturn(s))
  {
    SettleAllOnce(s.settlements, s.resolvers, Done, s.promises);
    SettleAllSettles(s.settlements, s.resolvers, Done, s.promises);
    var flushed := s.(done := true, settlements := SettleAll(s.settlements, s.resolvers, Done), resolvers := []);
    PromiseKeepsAll(flushed, Some(Done), []);
  }

  lemma NextKeepsInv(s: Iterator)
    requires Inv(s)
    ensures Inv(DoNext(s))
  {
    var t := DoNext(s);
    var outcome := if t.settlements == s.settlements then None else Some(t.settlements[|s.settlements|].outcome);
    PromiseKeepsAll(s, outcome, t.resolvers);
    forall i | 0 <= i < |t.resolvers| ensures !IsSettled(t.settlements, t.resolvers[i]) {
      if i < |s.resolvers| {
        assert !IsSettled(s.settlements, s.resolvers[i]);
      }
    }
  }

  lemma ArriveKeepsInv(s: Iterator, args: Args)
    requires Inv(s)
    ensures Inv(DoArrive(s, args))
  {
    var t := DoArrive(s, args);
    if !s.done && s.resolvers != [] {
      assert !IsSettled(s.settlements, s.resolvers[0]);
      forall i | 0 <= i < |t.resolvers| ensures !IsSettled(t.settlements, t.resolvers[i]) {
        assert t.resolvers[i] == s.resolvers[i + 1];
        assert !IsSettled(s.settlements, s.resolvers[i + 1]);
      }
      ArriveKeepsAll(s, t);
    }
  }

  lemma ArriveKeepsAll(s: Iterator, t: Iterator)
    requires AllSettledOrWaiting(s.settlements, s.resolvers, s.promises) && t.promises == s.promises
    requires s.resolvers != [] && t.resolvers == s.resolvers[1..]
    requires s.settlements < t.settlements && t.settlements[|s.settlements|].promise == s.resolvers[0]
    ensures AllSettledOrWaiting(t.settlements, t.resolvers, t.promises)
  {
    forall p | 0 <= p < s.promises ensures IsSettled(t.settlements, p) || p in t.resolvers {
      if IsSettled(s.settlements, p) {
        StillSettled(s.settlements, t.settlements, p);
      } else {
        var i :| 0 <= i < |s.resolvers| && s.resolvers[i] == p;
        assert i > 0 ==> t.resolvers[i - 1] == p;
      }
    }
  }

  lemma FailKeepsInv(s: Iterator, error: Option<int>)
    requires Inv(s)
    ensures Inv(DoFail(s, error))
  {
    SettleAllOnce(s.settlements, s.resolvers, Reject(error), s.promises);
    SettleAllSettles(s.settlements, s.resolvers, Reject(error), s.promises);
    ReturnKeepsInv(s.(error := error, settlements := SettleAll(s.settlements, s.resolvers, Reject(error)),
                      resolvers := [], failed := true));
  }

  /**
   * In every run, errors included: events are buffered only while nobody waits, every promise made is either
   * settled, once, or waiting, and after closing or an error nobody is left waiting.
   */
  lemma {:induction false} RendezvousIsSound(ops: seq<Op>)
    ensures Inv(Run(ops))
    decreases |ops|
  {
    if ops == [] {
    } else {
      var s := Run(ops[..|ops| - 1]);
      RendezvousIsSound(ops[..|ops| - 1]);
      match ops[|ops| - 1]
      case Next => NextKeepsInv(s);
      case Return => ReturnKeepsInv(s);
      case Arrive(args) => ArriveKeepsInv(s, args);
      case Fail(error) => FailKeepsInv(s, error);
    }
  }

  function Min(a: nat, b: nat): nat {
    if a <= b then a else b
  }

  /** The events and the promises of `next` that have met. */
  function Met(s: Iterator): nat {
    Min(|s.nexts|, |s.accepted|)
  }

  /** What the two queues hold is what has not met yet. */
  ghost predicate Matched(s: Iterator) {
    && s.error == None
    && s.buffered == s.accepted[Met(s)..]
    && s.resolvers == (if s.done then [] else s.nexts[Met(s)..])
  }

  /** The i-th call of `next` gets the i-th event; beyond the events it is done or waiting. */
  ghost predicate Delivered(s: Iterator, i: nat)
    requires i < |s.nexts|
  {
    if i < |s.accepted| then Settlement(s.nexts[i], Yield(s.accepted[i])) in s.settlements
    else if s.done then Settlement(s.nexts[i], Done) in s.settlements
    else !IsSettled(s.settlements, s.nexts[i])
  }

  ghost predicate AllDelivered(s: Iterator) {
    forall i :: 0 <= i < |s.nexts| ==> Delivered(s, i)
  }

  lemma SettledBySnoc(settlements: seq<Settlement>, last: Settlement, p: nat)
    ensures IsSettled(settlements + [last], p) <==> IsSettled(settlements, p) || last.promise == p
  {
    var all := settlements + [last];
    if IsSettled(settlements, p) {
      StillSettled(settlements, all, p);
    }
    assert all[|settlements|] == last;
  }

  lemma NextMatches(s: Iterator)
    requires Inv(s) && Matched(s)
    ensures Matched(DoNext(s))
  {
    hide SettledOnce, AllSettledOrWaiting, Waiting;
  }

  /** An earlier call of `next`, after another one. */
  lemma NextDeliversOne(s: Iterator, i: nat)
    requires Inv(s) && Matched(s) && i < |s.nexts| && Delivered(s, i)
    ensures Delivered(DoNext(s), i)
  {
    hide SettledOnce, AllSettledOrWaiting, IsSettled;
    if i >= |s.accepted| && !s.done {
      assert s.resolvers[i - Met(s)] == s.nexts[i];
      assert s.settlements + [] == s.settlements;
    }
  }

  lemma NextDeliversLast(s: Iterator)
    requires Inv(s) && Matched(s)
    ensures Delivered(DoNext(s), |s.nexts|)
  {
    hide SettledOnce, AllSettledOrWaiting;
  }

  lemma NextDelivers(s: Iterator)
    requires Inv(s) && Matched(s) && AllDelivered(s)
    ensures Matched(DoNext(s)) && AllDelivered(DoNext(s))
  {
    NextMatches(s);
    NextDeliversLast(s);
    assert |DoNext(s).nexts| == |s.nexts| + 1;
    hide Inv, Matched, Delivered, DoNext;
    forall i | 0 <= i < |s.nexts| ensures Delivered(DoNext(s), i) {
      assert Delivered(s, i);
      NextDeliversOne(s, i);
    }
  }

  lemma ArriveMatches(s: Iterator, args: Args)
    requires Inv(s) && Matched(s)
    ensures Matched(DoArrive(s, args))
  {
    hide SettledOnce, AllSettledOrWaiting, Waiting;
  }

  /** The i-th call of `next`, after an event has been accepted. */
  lemma ArriveDeliversOne(s: Iterator, args: Args, i: nat)
    requires Inv(s) && Matched(s) && !s.done && i < |s.nexts| && Delivered(s, i)
    ensures Delivered(DoArrive(s, args), i)
  {
    hide SettledOnce, AllSettledOrWaiting, IsSettled;
    if i >= |s.accepted| {
      var first := Settlement(s.resolvers[0], Yield(args));
      SettledBySnoc(s.settlements, first, s.nexts[i]);
      assert (s.settlements + [first])[|s.settlements|] == first;
      assert s.resolvers[i - Met(s)] == s.nexts[i];
    }
  }

  lemma ArriveDelivers(s: Iterator, args: Args)
    requires Inv(s) && Matched(s) && AllDelivered(s)
    ensures Matched(DoArrive(s, args)) && AllDelivered(DoArrive(s, args))
  {
    ArriveMatches(s, args);
    hide Inv, Matched, Delivered;
    if !s.done {
      forall i | 0 <= i < |s.nexts| ensures Delivered(DoArrive(s, args), i) {
        assert Delivered(s, i);
        ArriveDeliversOne(s, args, i);
      }
    }
  }

  lemma ReturnDelivers(s: Iterator)
    requires Inv(s) && Matched(s) && AllDelivered(s)
    ensures Matched(DoReturn(s)) && AllDelivered(DoReturn(s))
  {
    hide SettledOnce, AllSettledOrWaiting;
    var t := DoReturn(s);
    forall i | 0 <= i < |t.nexts| ensures Delivered(t, i) {
      assert Delivered(s, i);
      if i >= |s.accepted| && !s.done {
        assert s.resolvers[i - Met(s)] == s.nexts[i];
        assert t.settlements[|s.settlements| + i - Met(s)] == Settlement(s.nexts[i], Done);
      }
    }
  }

  ghost predicate NoError(ops: seq<Op>) {
    forall op :: op in ops ==> !op.Fail?
  }

  /**
   * Delivery: in every run without errors, the i-th call of `next` yields the i-th event accepted before
   * closing; if there is none it is done after closing and pending before. Buffered events survive closing.
   */
  lemma {:induction false} DeliveryIsInOrder(ops: seq<Op>)
    requires NoError(ops)
    ensures Matched(Run(ops)) && AllDelivered(Run(ops))
    decreases |ops|
  {
    if ops == [] {
    } else {
      var front, last := ops[..|ops| - 1], ops[|ops| - 1];
      assert last in ops;
      DeliveryIsInOrder(front);
      RendezvousIsSound(front);
      match last
      case Next => NextDelivers(Run(front));
      case Return => ReturnDelivers(Run(front));
      case Arrive(args) => ArriveDelivers(Run(front), args);
    }
  }

  /** The events that arrive before the iterator is closed by `return` or an error. */
  ghost function ArrivalsBeforeClosing(ops: seq<Op>): seq<Args>
    decreases |ops|
  {
    if ops == [] then []
    else
      var front, last := ops[..|ops| - 1], ops[|ops| - 1];
      ArrivalsBeforeClosing(front) + if last.Arrive? && !Closed(front) then [last.args] else []
  }

  ghost predicate Closed(ops: seq<Op>) {
    exists i :: 0 <= i < |ops| && (ops[i].Return? || ops[i].Fail?)
  }

  function CallsOfNext(ops: seq<Op>): nat
    decreases |ops|
  {
    if ops == [] then 0 else CallsOfNext(ops[..|ops| - 1]) + if ops[|ops| - 1].Next? then 1 else 0
  }

  lemma HistoryOfStep(s: Iterator, op: Op)
    ensures var t := Step(s, op);
      && t.accepted == s.accepted + (if op.Arrive? && !s.done then [op.args] else [])
      && (t.done <==> s.done || op.Return? || op.Fail?)
      && |t.nexts| == |s.nexts| + if op.Next? then 1 else 0
  {
    assert s.accepted + [] == s.accepted;
  }

  /** The history fields are what their names say. */
  lemma {:induction false} HistoryIsTrue(ops: seq<Op>)
    ensures Run(ops).accepted == ArrivalsBeforeClosing(ops)
    ensures Run(ops).done <==> Closed(ops)
    ensures |Run(ops).nexts| == CallsOfNext(ops)
    decreases |ops|
  {
    if ops == [] {
    } else {
      var front, last := ops[..|ops| - 1], ops[|ops| - 1];
      HistoryIsTrue(front);
      HistoryOfStep(Run(front), last);
      hide Step;
      assert ops == front + [last];
      assert Closed(ops) <==> Closed(front) || last.Return? || last.Fail? by {
        assert forall i :: 0 <= i < |front| ==> ops[i] == front[i];
      }
    }
  }

  lemma SettledAlike(settlements: seq<Settlement>, waiting: seq<nat>, outcome: Outcome, p: nat)
    requires p in waiting
    ensures Settlement(p, outcome) in SettleAll(settlements, waiting, outcome)
  {
    var i :| 0 <= i < |waiting| && waiting[i] == p;
    assert SettleAll(settlements, waiting, outcome)[|settlements| + i] == Settlement(p, outcome);
  }

  lemma SettledOnceInRun(ops: seq<Op>)
    ensures SettledOnce(Run(ops).settlements)
  {
    RendezvousIsSound(ops);
  }

  /**
   * `return` is answered: after any run, errors included, its own promise and every waiting one are settled as
   * done, and by nothing else.
   */
  lemma ReturnAnswersDone(ops: seq<Op>, p: nat)
    requires p == Run(ops).promises || p in Run(ops).resolvers
    ensures var settled := Run(ops + [Return]).settlements;
      && Settlement(p, Done) in settled
      && forall x :: x in settled && x.promise == p ==> x.outcome == Done
  {
    hide Run, SettledOnce, SettleAll;
    var s, t := Run(ops), Run(ops + [Return]);
    RunSnoc(ops, Return);
    SettledOnceInRun(ops + [Return]);
    var waiting := SettleAll(s.settlements, s.resolvers, Done);
    assert t.settlements == waiting + [Settlement(s.promises, Done)];
    if p in s.resolvers {
      SettledAlike(s.settlements, s.resolvers, Done, p);
    } else {
      assert t.settlements[|waiting|] == Settlement(p, Done);
    }
    OnlySettlement(t.settlements, p, Done);
  }

  /** An error rejects every waiting promise with it, and by nothing else. */
  lemma ErrorRejectsTheWaiting(ops: seq<Op>, error: Option<int>, p: nat)
    requires p in Run(ops).resolvers
    ensures var settled := Run(ops + [Fail(error)]).settlements;
      && Settlement(p, Reject(error)) in settled
      && forall x :: x in settled && x.promise == p ==> x.outcome == Reject(error)
  {
    hide Run, SettledOnce, SettleAll;
    var s, t := Run(ops), Run(ops + [Fail(error)]);
    RunSnoc(ops, Fail(error));
    SettledOnceInRun(ops + [Fail(error)]);
    SettledAlike(s.settlements, s.resolvers, Reject(error), p);
    var rejected := SettleAll(s.settlements, s.resolvers, Reject(error));
    assert t.settlements == SettleAll(rejected, [], Done) + [Settlement(s.promises, Done)];
    NothingToSettle(rejected, Done);
    OnlySettlement(t.settlements, p, Reject(error));
  }

  lemma NothingToSettle(settlements: seq<Settlement>, outcome: Outcome)
    ensures SettleAll(settlements, [], outcome) == settlements
  {
  }

  lemma OnlySettlement(settlements: seq<Settlement>, p: nat, outcome: Outcome)
    requires SettledOnce(settlements) && Settlement(p, outcome) in settlements
    ensures forall x :: x in settlements && x.promise == p ==> x.outcome == outcome
  {
    var i :| 0 <= i < |settlements| && settlements[i] == Settlement(p, outcome);
    forall x | x in settlements && x.promise == p ensures x.outcome == outcome {
      var j :| 0 <= j < |settlements| && settlements[j] == x;
      assert i == j;
    }
  }

  // ---------------------------------------------------------------------------
  // Errors
  // ---------------------------------------------------------------------------

  /** The events that have been yielded, in the order of the settlements. */
  function Yields(settlements: seq<Settlement>): seq<Args>
    decreases |settlements|
  {
    if settlements == [] then []
    else
      var last := settlements[|settlements| - 1].outcome;
      Yields(settlements[..|settlements| - 1]) + if last.Yield? then [last.args] else []
  }

  lemma YieldsOfSnoc(settlements: seq<Settlement>, last: Settlement)
    ensures Yields(settlements + [last]) ==
            Yields(settlements) + if last.outcome.Yield? then [last.outcome.args] else []
  {
    assert (settlements + [last])[..|settlements|] == settlements;
  }

  lemma {:induction false} YieldsOfSettleAll(settlements: seq<Settlement>, waiting: seq<nat>, outcome: Outcome)
    requires !outcome.Yield?
    ensures Yields(SettleAll(settlements, waiting, outcome)) == Yields(settlements)
    decreases |waiting|
  {
    if waiting == [] {
      assert SettleAll(settlements, [], outcome) == settlements;
    } else {
      var n := |waiting| - 1;
      YieldsOfSettleAll(settlements, waiting[..n], outcome);
      YieldsOfSnoc(SettleAll(settlements, waiting[..n], outcome), Settlement(waiting[n], outcome));
      assert SettleAll(settlements, waiting, outcome)
          == SettleAll(settlements, waiting[..n], outcome) + [Settlement(waiting[n], outcome)];
    }
  }

  /** What has been yielded and what is buffered is, in this order, what was accepted. */
  ghost predicate YieldedInOrder(s: Iterator) {
    s.accepted == Yields(s.settlements) + s.buffered
  }

  lemma PromiseKeepsYields(s: Iterator, outcome: Option<Outcome>)
    ensures Yields(Promise(s, outcome).settlements) ==
            Yields(s.settlements) + if outcome.Some? && outcome.value.Yield? then [outcome.value.args] else []
  {
    match outcome
    case Some(o) => YieldsOfSnoc(s.settlements, Settlement(s.promises, o));
    case None => assert s.settlements + [] == s.settlements;
  }

  lemma NextKeepsOrder(s: Iterator)
    requires YieldedInOrder(s)
    ensures YieldedInOrder(DoNext(s))
  {
    hide Yields;
    var s' := s.(nexts := s.nexts + [s.promises]);
    if s.error.Some? {
      PromiseKeepsYields(s', Some(Reject(s.error)));
    } else if s.buffered != [] {
      PromiseKeepsYields(s'.(buffered := s.buffered[1..]), Some(Yield(s.buffered[0])));
    } else if s.done {
      PromiseKeepsYields(s', Some(Done));
    } else {
      PromiseKeepsYields(s'.(resolvers := s.resolvers + [s.promises]), None);
    }
  }

  lemma ReturnKeepsOrder(s: Iterator)
    requires YieldedInOrder(s)
    ensures YieldedInOrder(DoReturn(s))
  {
    YieldsOfSettleAll(s.settlements, s.resolvers, Done);
    PromiseKeepsYields(
      s.(done := true, settlements := SettleAll(s.settlements, s.resolvers, Done), resolvers := []), Some(Done));
  }

  lemma ArriveKeepsOrder(s: Iterator, args: Args)
    requires Inv(s) && YieldedInOrder(s)
    ensures YieldedInOrder(DoArrive(s, args))
  {
    if !s.done && s.resolvers != [] {
      YieldsOfSnoc(s.settlements, Settlement(s.resolvers[0], Yield(args)));
    }
  }

  lemma FailKeepsOrder(s: Iterator, error: Option<int>)
    requires YieldedInOrder(s)
    ensures YieldedInOrder(DoFail(s, error))
  {
    YieldsOfSettleAll(s.settlements, s.resolvers, Reject(error));
    ReturnKeepsOrder(s.(error := error, settlements := SettleAll(s.settlements, s.resolvers, Reject(error)),
                        resolvers := [], failed := true));
  }

  /** In every run, errors included, no event is lost, repeated or overtaken. */
  lemma {:induction false} EventsAreYieldedInOrder(ops: seq<Op>)
    ensures YieldedInOrder(Run(ops))
    decreases |ops|
  {
    if ops == [] {
    } else {
      var front := ops[..|ops| - 1];
      EventsAreYieldedInOrder(front);
      RendezvousIsSound(front);
      match ops[|ops| - 1]
      case Next => NextKeepsOrder(Run(front));
      case Return => ReturnKeepsOrder(Run(front));
      case Arrive(args) => ArriveKeepsOrder(Run(front), args);
      case Fail(error) => FailKeepsOrder(Run(front), error);
    }
  }

  /** The error of the last failure; there may be none, or it may be undefined. */
  function LastError(ops: seq<Op>): Option<int>
    decreases |ops|
  {
    if ops == [] then None
    else if ops[|ops| - 1].Fail? then ops[|ops| - 1].error
    else LastError(ops[..|ops| - 1])
  }

  lemma {:induction false} ErrorIsTheLast(ops: seq<Op>)
    ensures Run(ops).error == LastError(ops)
    decreases |ops|
  {
    if ops == [] {
    } else {
      ErrorIsTheLast(ops[..|ops| - 1]);
    }
  }

  lemma RunSnoc(ops: seq<Op>, op: Op)
    ensures Run(ops + [op]) == Step(Run(ops), op)
  {
    assert (ops + [op])[..|ops|] == ops;
  }

  /**
   * What the next call of `next` gets, after any run: if the last failure had a defined error, that error;
   * otherwise the oldest event that has not been yielded, or else the end if closed, or else it waits.
   */
  ghost function Answer(ops: seq<Op>): Option<Outcome>
    requires |Yields(Run(ops).settlements)| <= |ArrivalsBeforeClosing(ops)|
  {
    var yielded, accepted := |Yields(Run(ops).settlements)|, ArrivalsBeforeClosing(ops);
    match LastError(ops)
    case Some(e) => Some(Reject(Some(e)))
    case None =>
      if yielded < |accepted| then Some(Yield(accepted[yielded]))
      else if Closed(ops) then Some(Done)
      else None
  }

  /**
   * Errors, over every run: a failure rejects every promise that waits, with its error; after that, `next` is
   * rejected exactly if the last failure had a defined error, and is answered as if there had been none if not.
   */
  lemma ErrorReachesEveryone(ops: seq<Op>, error: Option<int>)
    ensures forall i :: 0 <= i < |Run(ops).resolvers| ==>
              Settlement(Run(ops).resolvers[i], Reject(error)) in Run(ops + [Fail(error)]).settlements
    ensures |Yields(Run(ops).settlements)| <= |ArrivalsBeforeClosing(ops)|
    ensures Run(ops + [Next]).settlements ==
            Run(ops).settlements +
            match Answer(ops) { case Some(o) => [Settlement(Run(ops).promises, o)] case None => [] }
    ensures Answer(ops).None? ==> Run(ops + [Next]).resolvers == Run(ops).resolvers + [Run(ops).promises]
  {
    var s := Run(ops);
    RunSnoc(ops, Fail(error));
    RunSnoc(ops, Next);
    ErrorIsTheLast(ops);
    HistoryIsTrue(ops);
    EventsAreYieldedInOrder(ops);
    RejectionsAreKept(s, error);
  }

  lemma RejectionsAreKept(s: Iterator, error: Option<int>)
    ensures forall i :: 0 <= i < |s.resolvers| ==>
              Settlement(s.resolvers[i], Reject(error)) in DoFail(s, error).settlements
  {
    var settled := SettleAll(s.settlements, s.resolvers, Reject(error));
    assert settled <= DoFail(s, error).settlements;
    forall i | 0 <= i < |s.resolvers|
      ensures Settlement(s.resolvers[i], Reject(error)) in DoFail(s, error).settlements
    {
      assert DoFail(s, error).settlements[|s.settlements| + i] == settled[|s.settlements| + i];
    }
  }

  /** An undefined error makes the iterator forget an earlier one, so that `next` is done and not rejected. */
  lemma UndefinedErrorIsForgotten()
    ensures Answer([Fail(Some(1)), Fail(None)]) == Some(Done)
  {
    var ops := [Fail(Some(1)), Fail(None)];
    ErrorReachesEveryone(ops, None);
    assert ops[..1] == [Fail(Some(1))] && ops[..1][..0] == [];
    assert ArrivalsBeforeClosing(ops) == [];
    assert ops[0].Fail?;
  }
}
