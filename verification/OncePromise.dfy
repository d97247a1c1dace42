/** `events.once`: a promise for the next emission, which leaves no trace once it has settled. */
module OncePromise {
  import opened EventEmitters
  import opened Emission
  import opened Options

  /** The four functions behind one call of `events.once(emitter, name)`. */
  datatype Wait = Wait(name: EventName, resolveId: nat, rejectId: nat, resolveWrapperId: nat, rejectWrapperId: nat) {
    predicate Valid() {
      resolveId != rejectId
    }

    function Resolve(): Listener { Function(resolveId) }

    function Reject(): Listener { Function(rejectId) }

    /** What `emitter.once` registers for them. */
    function ResolveWrapper(): Listener { OnceWrapper(resolveWrapperId, name, Resolve()) }

    function RejectWrapper(): Listener { OnceWrapper(rejectWrapperId, ERROR, Reject()) }

    predicate Ours(l: Listener) {
      l == ResolveWrapper() || l == RejectWrapper()
    }

    predicate Reserved(l: Listener) {
      Ours(l) || l == Resolve() || l == Reject()
    }

    /** Nobody else gets hold of the four functions. */
    predicate Foreign(l: Listener) {
      !Reserved(l) && (l.OnceWrapper? ==> !Reserved(l.original))
    }
  }

  datatype Settlement = Pending | Resolved(args: seq<Arg>) | Rejected(reason: Option<Arg>)

  datatype WaitState = WaitState(em: State, promise: Settlement)

  // ---------------------------------------------------------------------------
  // Steps
  // ---------------------------------------------------------------------------

  /** `events.once`: no second listener if it is "error" that is awaited. */
  function Begin(em: State, p: Wait): WaitState {
    var em' := DoOn(em, p.name, p.ResolveWrapper(), false);
    WaitState(if p.name == ERROR then em' else DoOn(em', ERROR, p.RejectWrapper(), false), Pending)
  }

  /** A promise is rejected with the first argument, or with undefined if there is none. */
  function Reason(args: seq<Arg>): Option<Arg> {
    if args == [] then None else Some(args[0])
  }

  /** Settling a settled promise has no effect. */
  function Settle(s: Settlement, l: Listener, args: seq<Arg>, p: Wait): Settlement {
    if s != Pending then s else if l == p.ResolveWrapper() then Resolved(args) else Rejected(Reason(args))
  }

  /** `onceCleanup` */
  ghost function Cleanup(em: State, p: Wait): State {
    DoOff(DoOff(em, p.name, p.Resolve()), ERROR, p.Reject())
  }

  predicate RunsOurs(em: State, op: Op, p: Wait) {
    op.RunNext? && em.queue != [] && em.queue[0].ListenerTask? && p.Ours(em.queue[0].call.listener)
  }

  ghost function Next(s: WaitState, op: Op, p: Wait): WaitState {
    var em := Emission.Next(s.em, op);
    if RunsOurs(s.em, op, p) then
      var call := s.em.queue[0].call;
      WaitState(Cleanup(em, p), Settle(s.promise, call.listener, call.args, p))
    else s.(em := em)
  }

  ghost function Run(s: WaitState, ops: seq<Op>, p: Wait): WaitState
    decreases |ops|
  {
    if ops == [] then s else Next(Run(s, ops[..|ops| - 1], p), ops[|ops| - 1], p)
  }

  /** The arguments of a notice about one of the call's own functions. */
  predicate AboutOurs(args: seq<Arg>, p: Wait) {
    exists i :: 0 <= i < |args| && args[i].ListenerArg? && p.Reserved(args[i].listener)
  }

  ghost predicate ForeignOp(op: Op, p: Wait) {
    match op
    case On(_, l, _) => p.Foreign(l)
    case Off(_, l) => p.Foreign(l)
    case Fire(_, args) => !AboutOurs(args, p)
    case _ => true
  }

  ghost predicate ForeignOps(ops: seq<Op>, p: Wait) {
    forall i :: 0 <= i < |ops| ==> ForeignOp(ops[i], p)
  }

  // ---------------------------------------------------------------------------
  // Erasing our listeners from a store
  // ---------------------------------------------------------------------------

  function Erase(ls: seq<Listener>, p: Wait): seq<Listener>
    decreases |ls|
  {
    if ls == [] then []
    else if p.Ours(ls[0]) then Erase(ls[1..], p)
    else [ls[0]] + Erase(ls[1..], p)
  }

  function EraseAll(t: Table, p: Wait): Table {
    map e | e in t && Erase(t[e], p) != [] :: Erase(t[e], p)
  }

  lemma {:induction false} EraseAppend(a: seq<Listener>, b: seq<Listener>, p: Wait)
    ensures Erase(a + b, p) == Erase(a, p) + Erase(b, p)
    decreases |a|
  {
    if a == [] {
      assert a + b == b;
    } else {
      assert (a + b)[1..] == a[1..] + b;
      EraseAppend(a[1..], b, p);
    }
  }

  ghost predicate OursOrForeign(ls: seq<Listener>, p: Wait) {
    forall i :: 0 <= i < |ls| ==> p.Ours(ls[i]) || p.Foreign(ls[i])
  }

  lemma {:induction false} EraseOfForeign(ls: seq<Listener>, p: Wait)
    requires forall i :: 0 <= i < |ls| ==> !p.Ours(ls[i])
    ensures Erase(ls, p) == ls
    decreases |ls|
  {
    if ls == [] {
    } else {
      EraseOfForeign(ls[1..], p);
    }
  }

  /** Removing a foreign listener does not see ours. */
  lemma {:induction false} EraseOfForeignRemoval(ls: seq<Listener>, l: Listener, p: Wait)
    requires p.Foreign(l)
    ensures Erase(RemoveFirst(ls, l), p) == RemoveFirst(Erase(ls, p), l)
    decreases |ls|
  {
    if ls == [] {
    } else {
      EraseOfForeignRemoval(ls[1..], l, p);
      if !Matches(ls[0], l) {
        assert ([ls[0]] + RemoveFirst(ls[1..], l))[1..] == RemoveFirst(ls[1..], l);
      }
      if !p.Ours(ls[0]) {
        assert ([ls[0]] + Erase(ls[1..], p))[1..] == Erase(ls[1..], p);
      }
    }
  }

  /** Removing one of our functions removes nothing else. */
  lemma {:induction false} EraseOfOurRemoval(ls: seq<Listener>, l: Listener, p: Wait)
    requires p.Reserved(l) && OursOrForeign(ls, p)
    ensures Erase(RemoveFirst(ls, l), p) == Erase(ls, p)
    decreases |ls|
  {
    if ls == [] {
    } else {
      assert OursOrForeign(ls[1..], p);
      EraseOfOurRemoval(ls[1..], l, p);
      if !Matches(ls[0], l) {
        assert ([ls[0]] + RemoveFirst(ls[1..], l))[1..] == RemoveFirst(ls[1..], l);
      }
    }
  }

  lemma ListenersOfErased(t: Table, event: EventName, p: Wait)
    ensures Listeners(EraseAll(t, p), event) == Erase(Listeners(t, event), p)
  {
  }

  lemma EraseOfSet(t: Table, event: EventName, ls: seq<Listener>, p: Wait)
    ensures EraseAll(SetListeners(t, event, ls), p) == SetListeners(EraseAll(t, p), event, Erase(ls, p))
  {
  }

  lemma EraseOfForeignAdd(t: Table, event: EventName, l: Listener, prepend: bool, p: Wait)
    requires !p.Ours(l)
    ensures EraseAll(Add(t, event, l, prepend), p) == Add(EraseAll(t, p), event, l, prepend)
  {
    var ls := Listeners(t, event);
    EraseAppend([l], ls, p);
    EraseAppend(ls, [l], p);
    EraseOne(l, p);
    ListenersOfErased(t, event, p);
    EraseOfSet(t, event, if prepend then [l] + ls else ls + [l], p);
  }

  lemma EraseOfOurAdd(t: Table, event: EventName, l: Listener, p: Wait)
    requires p.Ours(l)
    ensures EraseAll(Add(t, event, l, false), p) == EraseAll(t, p)
  {
    var ls := Listeners(t, event);
    EraseAppend(ls, [l], p);
    EraseOne(l, p);
    assert Erase(ls, p) + [] == Erase(ls, p);
    ListenersOfErased(t, event, p);
    EraseOfSet(t, event, ls + [l], p);
    SetToItself(EraseAll(t, p), event);
  }

  lemma EraseOne(l: Listener, p: Wait)
    ensures Erase([l], p) == if p.Ours(l) then [] else [l]
  {
    assert [l][1..] == [];
  }

  lemma SetToItself(t: Table, event: EventName)
    requires NoEmptyList(t)
    ensures SetListeners(t, event, Listeners(t, event)) == t
  {
  }

  lemma EraseOfForeignRemove(t: Table, event: EventName, l: Listener, p: Wait)
    requires p.Foreign(l)
    ensures EraseAll(Remove(t, event, l), p) == Remove(EraseAll(t, p), event, l)
  {
    if event in t {
      EraseOfForeignRemoval(t[event], l, p);
      EraseOfSet(t, event, RemoveFirst(t[event], l), p);
    }
  }

  ghost predicate TableOursOrForeign(t: Table, p: Wait) {
    forall e :: e in t ==> OursOrForeign(t[e], p)
  }

  lemma EraseOfOurRemove(t: Table, event: EventName, l: Listener, p: Wait)
    requires p.Reserved(l) && TableOursOrForeign(t, p)
    ensures EraseAll(Remove(t, event, l), p) == EraseAll(t, p)
  {
    if event in t {
      EraseOfOurRemoval(t[event], l, p);
      EraseOfSet(t, event, RemoveFirst(t[event], l), p);
      ListenersOfErased(t, event, p);
      SetToItself(EraseAll(t, p), event);
    }
  }

  // ---------------------------------------------------------------------------
  // Where our listeners are
  // ---------------------------------------------------------------------------

  function Count(ls: seq<Listener>, l: Listener): nat {
    multiset(ls)[l]
  }

  ghost predicate Absent(t: Table, l: Listener) {
    forall e :: e in t ==> l !in t[e]
  }

  /** Each of our wrappers is registered at most once, and for its own event only. */
  ghost predicate ListInv(ls: seq<Listener>, event: EventName, p: Wait) {
    && OursOrForeign(ls, p)
    && Count(ls, p.ResolveWrapper()) <= (if event == p.name then 1 else 0)
    && Count(ls, p.RejectWrapper()) <= (if event == ERROR != p.name then 1 else 0)
  }

  ghost predicate StoreInv(t: Table, p: Wait) {
    forall e :: e in t ==> t[e] != [] && ListInv(t[e], e, p)
  }

  lemma RemoveKeepsListInv(ls: seq<Listener>, event: EventName, l: Listener, p: Wait)
    requires ListInv(ls, event, p)
    ensures ListInv(RemoveFirst(ls, l), event, p)
  {
    var rest := RemoveFirst(ls, l);
    RemoveFirstShrinks(ls, l, p.ResolveWrapper());
    RemoveFirstShrinks(ls, l, p.RejectWrapper());
    forall i | 0 <= i < |rest| ensures p.Ours(rest[i]) || p.Foreign(rest[i]) {
      assert rest[i] in ls;
    }
  }

  lemma RemoveKeepsStoreInv(t: Table, event: EventName, l: Listener, p: Wait)
    requires StoreInv(t, p)
    ensures StoreInv(Remove(t, event, l), p)
    ensures forall x :: Absent(t, x) ==> Absent(Remove(t, event, l), x)
  {
    if event in t {
      RemoveKeepsListInv(t[event], event, l, p);
      RemoveFirstShrinks(t[event], l, l);
    }
  }

  lemma RemoveOurs(t: Table, event: EventName, l: Listener, x: Listener, p: Wait)
    requires p.Valid() && StoreInv(t, p)
    requires (x == p.ResolveWrapper() && event == p.name && (l == x || l == p.Resolve()))
          || (x == p.RejectWrapper() && event == ERROR && (l == x || l == p.Reject()))
    ensures Absent(Remove(t, event, l), x)
  {
    if event in t {
      forall y | y in t[event] && Matches(y, l) ensures y == x {
        var i :| 0 <= i < |t[event]| && t[event][i] == y;
        assert p.Ours(t[event][i]) || p.Foreign(t[event][i]);
      }
      RemoveFirstHits(t[event], l, x);
    }
  }

  lemma AddKeepsListInv(ls: seq<Listener>, event: EventName, l: Listener, prepend: bool, p: Wait)
    requires ListInv(ls, event, p) && p.Foreign(l)
    ensures ListInv(if prepend then [l] + ls else ls + [l], event, p)
  {
    var all := if prepend then [l] + ls else ls + [l];
    assert multiset(all) == multiset(ls) + multiset{l};
  }

  lemma AddKeepsStoreInv(t: Table, event: EventName, l: Listener, prepend: bool, p: Wait)
    requires StoreInv(t, p) && p.Foreign(l)
    ensures StoreInv(Add(t, event, l, prepend), p)
    ensures forall x :: x != l && Absent(t, x) ==> Absent(Add(t, event, l, prepend), x)
  {
    assert ListInv(Listeners(t, event), event, p);
    hide ListInv;
    AddKeepsListInv(Listeners(t, event), event, l, prepend, p);
  }

  // ---------------------------------------------------------------------------
  // Every step
  // ---------------------------------------------------------------------------

  ghost predicate Clean(t: Table, p: Wait) {
    Absent(t, p.ResolveWrapper()) && Absent(t, p.RejectWrapper())
  }

  /** A settled promise has left no listener behind. */
  ghost predicate Inv(s: WaitState, p: Wait) {
    && StoreInv(s.em.table, p)
    && QueueInv(s.em.queue, p)
    && (s.promise != Pending ==> Clean(s.em.table, p))
  }

  ghost predicate QueueInv(queue: seq<Task>, p: Wait) {
    forall i :: 0 <= i < |queue| && queue[i].ListenerTask? ==>
                  p.Ours(queue[i].call.listener) || p.Foreign(queue[i].call.listener)
  }

  lemma EmitKeepsQueueInv(em: State, event: EventName, args: seq<Arg>, p: Wait)
    requires TableOursOrForeign(em.table, p) && QueueInv(em.queue, p)
    ensures QueueInv(DoEmit(em, event, args).queue, p)
  {
    var ls := Listeners(em.table, event);
    assert OursOrForeign(ls, p);
    var t := DoEmit(em, event, args);
    forall i | 0 <= i < |t.queue| && t.queue[i].ListenerTask?
      ensures p.Ours(t.queue[i].call.listener) || p.Foreign(t.queue[i].call.listener)
    {
      if i >= |em.queue| {
        assert t.queue[i].call.listener == ls[i - |em.queue|];
      }
    }
  }

  lemma OffEffect(em: State, event: EventName, l: Listener, p: Wait)
    requires StoreInv(em.table, p) && QueueInv(em.queue, p)
    ensures DoOff(em, event, l).table == Remove(em.table, event, l)
    ensures StoreInv(DoOff(em, event, l).table, p) && QueueInv(DoOff(em, event, l).queue, p)
    ensures DoOff(em, event, l).invoked == em.invoked
  {
    RemoveKeepsStoreInv(em.table, event, l, p);
    if HasMatch(Listeners(em.table, event), l) {
      EmitKeepsQueueInv(em.(table := Remove(em.table, event, l)), REMOVE_LISTENER,
                        [NameArg(event), ListenerArg(l)], p);
    } else if event in em.table {
      NoMatchNoRemoval(em.table[event], l);
      SetToItself(em.table, event);
    }
  }

  lemma {:induction false} NoticesKeepQueueInv(em: State, event: EventName, ls: seq<Listener>, n: nat, p: Wait)
    requires TableOursOrForeign(em.table, p) && QueueInv(em.queue, p) && n <= |ls|
    ensures QueueInv(DoNotices(em, event, ls, n).queue, p) && DoNotices(em, event, ls, n).table == em.table
  {
    if n == 0 {
    } else {
      var front := DoNotices(em, event, ls, n - 1);
      NoticesKeepQueueInv(em, event, ls, n - 1, p);
      EmitKeepsQueueInv(front, REMOVE_LISTENER, [NameArg(event), ListenerArg(ls[n - 1])], p);
    }
  }

  lemma {:induction false} NoticesOfAllKeepQueueInv(em: State, names: seq<EventName>, n: nat, p: Wait)
    requires TableOursOrForeign(em.table, p) && QueueInv(em.queue, p) && n <= |names|
    ensures QueueInv(DoNoticesOfAll(em, names, n).queue, p) && DoNoticesOfAll(em, names, n).table == em.table
  {
    if n == 0 {
    } else {
      var ls := Listeners(em.table, names[n - 1]);
      NoticesOfAllKeepQueueInv(em, names, n - 1, p);
      NoticesKeepQueueInv(DoNoticesOfAll(em, names, n - 1), names[n - 1], ls, |ls|, p);
    }
  }

  /** What a foreign step keeps. */
  ghost predicate StepKeeps(em: State, em': State, p: Wait) {
    && StoreInv(em'.table, p)
    && QueueInv(em'.queue, p)
    && (Clean(em.table, p) ==> Clean(em'.table, p))
  }

  lemma RunForeignEffect(em: State, p: Wait)
    requires p.Valid() && StoreInv(em.table, p) && QueueInv(em.queue, p)
    requires !RunsOurs(em, RunNext, p)
    ensures StepKeeps(em, Emission.Next(em, RunNext), p)
  {
    if em.queue != [] {
      assert QueueInv(em.queue[1..], p);
      var task := em.queue[0];
      if task.ListenerTask? && task.call.listener.OnceWrapper? {
        var w := task.call.listener;
        var called := em.(queue := em.queue[1..], invoked := em.invoked + [task.call]);
        OffEffect(called, w.event, w, p);
        RemoveKeepsStoreInv(em.table, w.event, w, p);
      }
    }
  }

  lemma ForeignEffect(em: State, op: Op, p: Wait)
    requires p.Valid() && StoreInv(em.table, p) && QueueInv(em.queue, p)
    requires ForeignOp(op, p) && !RunsOurs(em, op, p)
    ensures StepKeeps(em, Emission.Next(em, op), p)
  {
    match op
    case On(event, l, prepend) =>
      EmitKeepsQueueInv(em, NEW_LISTENER, [NameArg(event), ListenerArg(l)], p);
      AddKeepsStoreInv(em.table, event, l, prepend, p);
    case Off(event, l) =>
      OffEffect(em, event, l, p);
      RemoveKeepsStoreInv(em.table, event, l, p);
    case OffAll(event) =>
      NoticesKeepQueueInv(em, event, Listeners(em.table, event), |Listeners(em.table, event)|, p);
    case OffEverything(names) =>
      NoticesOfAllKeepQueueInv(em, names, |names|, p);
    case Fire(event, args) =>
      EmitKeepsQueueInv(em, event, args, p);
    case QueueOther(id) =>
    case RunNext =>
      RunForeignEffect(em, p);
  }

  lemma CleanupEffect(em: State, p: Wait)
    requires p.Valid() && StoreInv(em.table, p) && QueueInv(em.queue, p)
    ensures var t := Cleanup(em, p);
            && StoreInv(t.table, p) && QueueInv(t.queue, p) && Clean(t.table, p)
            && EraseAll(t.table, p) == EraseAll(em.table, p)
            && t.invoked == em.invoked
  {
    var first := DoOff(em, p.name, p.Resolve());
    OffEffect(em, p.name, p.Resolve(), p);
    RemoveOurs(em.table, p.name, p.Resolve(), p.ResolveWrapper(), p);
    EraseOfOurRemove(em.table, p.name, p.Resolve(), p);
    OffEffect(first, ERROR, p.Reject(), p);
    RemoveOurs(first.table, ERROR, p.Reject(), p.RejectWrapper(), p);
    EraseOfOurRemove(first.table, ERROR, p.Reject(), p);
    RemoveKeepsStoreInv(first.table, ERROR, p.Reject(), p);
  }

  /** Running one of our wrappers removes both of them and nothing else. */
  lemma OursEffect(s: WaitState, p: Wait)
    requires p.Valid() && Inv(s, p) && RunsOurs(s.em, RunNext, p)
    ensures Inv(Next(s, RunNext, p), p) && Clean(Next(s, RunNext, p).em.table, p)
    ensures EraseAll(Next(s, RunNext, p).em.table, p) == EraseAll(s.em.table, p)
    ensures Next(s, RunNext, p).em.invoked == s.em.invoked + [s.em.queue[0].call]
  {
    var w := s.em.queue[0].call.listener;
    var called := s.em.(queue := s.em.queue[1..], invoked := s.em.invoked + [s.em.queue[0].call]);
    OffEffect(called, w.event, w, p);
    EraseOfOurRemove(s.em.table, w.event, w, p);
    CleanupEffect(Emission.Next(s.em, RunNext), p);
  }

  lemma StepKeepsInv(s: WaitState, op: Op, p: Wait)
    requires p.Valid() && Inv(s, p) && ForeignOp(op, p)
    ensures Inv(Next(s, op, p), p)
  {
    if RunsOurs(s.em, op, p) {
      OursEffect(s, p);
    } else {
      ForeignEffect(s.em, op, p);
    }
  }

  /** The emitter before the call: nothing of ours in it yet. */
  ghost predicate Untouched(em: State, p: Wait) {
    && NoEmptyList(em.table)
    && (forall e, i :: e in em.table && 0 <= i < |em.table[e]| ==> p.Foreign(em.table[e][i]))
    && (forall i :: 0 <= i < |em.queue| && em.queue[i].ListenerTask? ==>
                      p.Foreign(em.queue[i].call.listener) && !AboutOurs(em.queue[i].call.args, p))
    && (forall i :: 0 <= i < |em.invoked| ==> !p.Ours(em.invoked[i].listener) && !AboutOurs(em.invoked[i].args, p))
    && (forall k, i :: 0 <= k < |em.emitted| && 0 <= i < |em.emitted[k].listeners| ==>
                         !p.Ours(em.emitted[k].listeners[i]))
    && (forall k :: 0 <= k < |em.emitted| ==> !AboutOurs(em.emitted[k].args, p))
    && InOrder(em)
  }

  lemma OurAddKeepsStoreInv(t: Table, event: EventName, l: Listener, p: Wait)
    requires p.Valid() && StoreInv(t, p) && Absent(t, l)
    requires (l == p.ResolveWrapper() && event == p.name) ||
             (l == p.RejectWrapper() && event == ERROR && p.name != ERROR)
    ensures StoreInv(Add(t, event, l, false), p)
    ensures forall x :: x != l && Absent(t, x) ==> Absent(Add(t, event, l, false), x)
  {
    var ls := Listeners(t, event);
    assert ListInv(ls, event, p);
    assert Count(ls, l) == 0;
    assert multiset(ls + [l]) == multiset(ls) + multiset{l};
    assert ListInv(ls + [l], event, p);
  }

  lemma UntouchedList(ls: seq<Listener>, event: EventName, p: Wait)
    requires forall i :: 0 <= i < |ls| ==> p.Foreign(ls[i])
    ensures ListInv(ls, event, p) && p.ResolveWrapper() !in ls && p.RejectWrapper() !in ls
  {
  }

  lemma UntouchedTable(t: Table, p: Wait)
    requires NoEmptyList(t) && forall e, i :: e in t && 0 <= i < |t[e]| ==> p.Foreign(t[e][i])
    ensures StoreInv(t, p) && Clean(t, p) && EraseAll(t, p) == t
  {
    hide ListInv, EraseAll;
    forall e | e in t
      ensures ListInv(t[e], e, p) && p.ResolveWrapper() !in t[e] && p.RejectWrapper() !in t[e]
    {
      UntouchedList(t[e], e, p);
    }
    CleanIsErased(t, p);
  }

  lemma UntouchedStore(em: State, p: Wait)
    requires p.Valid() && Untouched(em, p)
    ensures StoreInv(em.table, p) && QueueInv(em.queue, p) && Clean(em.table, p)
    ensures EraseAll(em.table, p) == em.table
  {
    hide StoreInv, Clean, EraseAll;
    UntouchedTable(em.table, p);
  }

  lemma BeginInv(em: State, p: Wait)
    requires p.Valid() && Untouched(em, p)
    ensures Inv(Begin(em, p), p)
    ensures EraseAll(Begin(em, p).em.table, p) == em.table
  {
    UntouchedStore(em, p);
    var w, j := p.ResolveWrapper(), p.RejectWrapper();
    EmitKeepsQueueInv(em, NEW_LISTENER, [NameArg(p.name), ListenerArg(w)], p);
    OurAddKeepsStoreInv(em.table, p.name, w, p);
    EraseOfOurAdd(em.table, p.name, w, p);
    if p.name != ERROR {
      var em' := DoOn(em, p.name, w, false);
      EmitKeepsQueueInv(em', NEW_LISTENER, [NameArg(ERROR), ListenerArg(j)], p);
      OurAddKeepsStoreInv(em'.table, ERROR, j, p);
      EraseOfOurAdd(em'.table, ERROR, j, p);
    }
  }

  lemma {:induction false} RunKeepsInv(em: State, ops: seq<Op>, p: Wait)
    requires p.Valid() && Untouched(em, p) && ForeignOps(ops, p)
    ensures Inv(Run(Begin(em, p), ops, p), p)
    decreases |ops|
  {
    if ops == [] {
      BeginInv(em, p);
    } else {
      var front := ops[..|ops| - 1];
      assert ForeignOps(front, p);
      RunKeepsInv(em, front, p);
      StepKeepsInv(Run(Begin(em, p), front, p), ops[|ops| - 1], p);
    }
  }

  lemma CleanIsErased(t: Table, p: Wait)
    requires Clean(t, p) && NoEmptyList(t)
    ensures EraseAll(t, p) == t
  {
    forall e | e in t ensures Erase(t[e], p) == t[e] {
      EraseOfForeign(t[e], p);
    }
  }

  // ---------------------------------------------------------------------------
  // Which emission settles the promise
  // ---------------------------------------------------------------------------

  /** The first call of one of our wrappers. */
  function FirstOurs(calls: seq<Call>, p: Wait): seq<Call>
    decreases |calls|
  {
    if calls == [] then [] else if p.Ours(calls[0].listener) then [calls[0]] else FirstOurs(calls[1..], p)
  }

  lemma {:induction false} FirstOursAppend(a: seq<Call>, b: seq<Call>, p: Wait)
    ensures FirstOurs(a + b, p) == if FirstOurs(a, p) != [] then FirstOurs(a, p) else FirstOurs(b, p)
    decreases |a|
  {
    if a == [] {
      assert a + b == b;
    } else {
      assert (a + b)[1..] == a[1..] + b;
      FirstOursAppend(a[1..], b, p);
    }
  }

  /** The first emission that found one of our wrappers registered. */
  function FirstHit(emitted: seq<Emit>, p: Wait): seq<Emit>
    decreases |emitted|
  {
    if emitted == [] then []
    else
      var front, last := emitted[..|emitted| - 1], emitted[|emitted| - 1];
      if FirstHit(front, p) != [] then FirstHit(front, p)
      else if p.ResolveWrapper() in last.listeners || p.RejectWrapper() in last.listeners then [last]
      else []
  }

  /** What an emission of `name` or "error" settles the promise with. */
  function Outcome(e: Emit, p: Wait): Settlement {
    if e.event == p.name then Resolved(e.args) else Rejected(Reason(e.args))
  }

  /** Our wrappers are only found by emissions of their own event. */
  ghost predicate EmittedInv(emitted: seq<Emit>, p: Wait) {
    forall k :: 0 <= k < |emitted| ==> EmitInv(emitted[k], p)
  }

  ghost predicate EmitInv(e: Emit, p: Wait) {
    && (p.ResolveWrapper() in e.listeners ==> e.event == p.name)
    && (p.RejectWrapper() in e.listeners ==> e.event == ERROR != p.name)
  }

  lemma StoreEmitInv(t: Table, event: EventName, args: seq<Arg>, queue: seq<Task>, p: Wait)
    requires StoreInv(t, p)
    ensures EmitInv(Emit(event, args, Listeners(t, event), queue), p)
  {
    if event in t {
      assert p.ResolveWrapper() in t[event] ==> Count(t[event], p.ResolveWrapper()) > 0;
      assert p.RejectWrapper() in t[event] ==> Count(t[event], p.RejectWrapper()) > 0;
    }
  }

  lemma EmitKeepsEmittedInv(em: State, event: EventName, args: seq<Arg>, p: Wait)
    requires StoreInv(em.table, p) && EmittedInv(em.emitted, p)
    ensures EmittedInv(DoEmit(em, event, args).emitted, p)
  {
    StoreEmitInv(em.table, event, args, em.queue, p);
  }

  lemma OffKeepsEmittedInv(em: State, event: EventName, l: Listener, p: Wait)
    requires StoreInv(em.table, p) && EmittedInv(em.emitted, p)
    ensures EmittedInv(DoOff(em, event, l).emitted, p)
  {
    RemoveKeepsStoreInv(em.table, event, l, p);
    EmitKeepsEmittedInv(em.(table := Remove(em.table, event, l)), REMOVE_LISTENER,
                        [NameArg(event), ListenerArg(l)], p);
  }

  lemma {:induction false} NoticesKeepEmittedInv(em: State, event: EventName, ls: seq<Listener>, n: nat, p: Wait)
    requires StoreInv(em.table, p) && EmittedInv(em.emitted, p) && n <= |ls|
    ensures EmittedInv(DoNotices(em, event, ls, n).emitted, p) && DoNotices(em, event, ls, n).table == em.table
  {
    if n == 0 {
    } else {
      var front := DoNotices(em, event, ls, n - 1);
      NoticesKeepEmittedInv(em, event, ls, n - 1, p);
      EmitKeepsEmittedInv(front, REMOVE_LISTENER, [NameArg(event), ListenerArg(ls[n - 1])], p);
    }
  }

  lemma {:induction false} NoticesOfAllKeepEmittedInv(em: State, names: seq<EventName>, n: nat, p: Wait)
    requires StoreInv(em.table, p) && EmittedInv(em.emitted, p) && n <= |names|
    ensures EmittedInv(DoNoticesOfAll(em, names, n).emitted, p) && DoNoticesOfAll(em, names, n).table == em.table
  {
    if n == 0 {
    } else {
      var ls := Listeners(em.table, names[n - 1]);
      NoticesOfAllKeepEmittedInv(em, names, n - 1, p);
      NoticesKeepEmittedInv(DoNoticesOfAll(em, names, n - 1), names[n - 1], ls, |ls|, p);
    }
  }

  lemma RunNextKeepsEmittedInv(em: State, p: Wait)
    requires StoreInv(em.table, p) && EmittedInv(em.emitted, p)
    ensures EmittedInv(DoRunNext(em).emitted, p)
  {
    if em.queue != [] && em.queue[0].ListenerTask? && em.queue[0].call.listener.OnceWrapper? {
      var w := em.queue[0].call.listener;
      OffKeepsEmittedInv(em.(queue := em.queue[1..], invoked := em.invoked + [em.queue[0].call]), w.event, w, p);
    }
  }

  lemma EmissionKeepsEmittedInv(em: State, op: Op, p: Wait)
    requires StoreInv(em.table, p) && EmittedInv(em.emitted, p)
    ensures EmittedInv(Emission.Next(em, op).emitted, p)
  {
    match op
    case On(event, l, prepend) => EmitKeepsEmittedInv(em, NEW_LISTENER, [NameArg(event), ListenerArg(l)], p);
    case Off(event, l) => OffKeepsEmittedInv(em, event, l, p);
    case OffAll(event) =>
      NoticesKeepEmittedInv(em, event, Listeners(em.table, event), |Listeners(em.table, event)|, p);
    case OffEverything(names) => NoticesOfAllKeepEmittedInv(em, names, |names|, p);
    case Fire(event, args) => EmitKeepsEmittedInv(em, event, args, p);
    case QueueOther(id) =>
    case RunNext => RunNextKeepsEmittedInv(em, p);
  }

  lemma CleanupKeepsHistory(em: State, p: Wait)
    requires p.Valid() && StoreInv(em.table, p) && QueueInv(em.queue, p)
    requires EmittedInv(em.emitted, p) && InOrder(em)
    ensures EmittedInv(Cleanup(em, p).emitted, p) && InOrder(Cleanup(em, p))
  {
    var first := DoOff(em, p.name, p.Resolve());
    OffEffect(em, p.name, p.Resolve(), p);
    OffKeepsEmittedInv(em, p.name, p.Resolve(), p);
    OffKeepsEmittedInv(first, ERROR, p.Reject(), p);
    OffKeepsInOrder(em, p.name, p.Resolve());
    OffKeepsInOrder(first, ERROR, p.Reject());
  }

  /** The promise reflects the first of our wrappers that was called. */
  ghost predicate HistoryInv(s: WaitState, p: Wait) {
    && EmittedInv(s.em.emitted, p)
    && InOrder(s.em)
    && var first := FirstOurs(s.em.invoked, p);
       s.promise == if first == [] then Pending else Settle(Pending, first[0].listener, first[0].args, p)
  }

  lemma InvokedAfter(em: State, op: Op)
    ensures Emission.Next(em, op).invoked ==
            if op.RunNext? && em.queue != [] && em.queue[0].ListenerTask? then em.invoked + [em.queue[0].call]
            else em.invoked
  {
    match op
    case OffAll(event) => NoticesAgree(em, event, Listeners(em.table, event), |Listeners(em.table, event)|);
    case OffEverything(names) => NoticesOfAllAgree(em, names, |names|);
    case _ =>
  }

  lemma FirstOursSnoc(calls: seq<Call>, c: Call, p: Wait)
    ensures FirstOurs(calls + [c], p) ==
            if FirstOurs(calls, p) != [] then FirstOurs(calls, p) else if p.Ours(c.listener) then [c] else []
  {
    FirstOursAppend(calls, [c], p);
    assert [c][1..] == [];
  }

  lemma StepKeepsHistoryInv(s: WaitState, op: Op, p: Wait)
    requires p.Valid() && Inv(s, p) && ForeignOp(op, p) && HistoryInv(s, p)
    ensures HistoryInv(Next(s, op, p), p)
  {
    var em := Emission.Next(s.em, op);
    EmissionKeepsEmittedInv(s.em, op, p);
    StepKeepsInOrder(s.em, op);
    InvokedAfter(s.em, op);
    if s.em.queue != [] && s.em.queue[0].ListenerTask? {
      FirstOursSnoc(s.em.invoked, s.em.queue[0].call, p);
    }
    if RunsOurs(s.em, op, p) {
      OursEffect(s, p);
      var w := s.em.queue[0].call.listener;
      OffEffect(s.em.(queue := s.em.queue[1..], invoked := s.em.invoked + [s.em.queue[0].call]), w.event, w, p);
      CleanupKeepsHistory(em, p);
    }
  }

  lemma {:induction false} FirstOursOfNone(calls: seq<Call>, p: Wait)
    requires forall i :: 0 <= i < |calls| ==> !p.Ours(calls[i].listener)
    ensures FirstOurs(calls, p) == []
    decreases |calls|
  {
    if calls == [] {
    } else {
      FirstOursOfNone(calls[1..], p);
    }
  }

  lemma BeginHistoryInv(em: State, p: Wait)
    requires p.Valid() && Untouched(em, p)
    ensures HistoryInv(Begin(em, p), p)
  {
    UntouchedStore(em, p);
    FirstOursOfNone(em.invoked, p);
    var w, j := p.ResolveWrapper(), p.RejectWrapper();
    assert EmittedInv(em.emitted, p);
    EmitKeepsEmittedInv(em, NEW_LISTENER, [NameArg(p.name), ListenerArg(w)], p);
    EmitKeepsInOrder(em, NEW_LISTENER, [NameArg(p.name), ListenerArg(w)]);
    OurAddKeepsStoreInv(em.table, p.name, w, p);
    if p.name != ERROR {
      var em' := DoOn(em, p.name, w, false);
      EmitKeepsEmittedInv(em', NEW_LISTENER, [NameArg(ERROR), ListenerArg(j)], p);
      EmitKeepsInOrder(em', NEW_LISTENER, [NameArg(ERROR), ListenerArg(j)]);
    }
  }

  lemma {:induction false} RunKeepsHistoryInv(em: State, ops: seq<Op>, p: Wait)
    requires p.Valid() && Untouched(em, p) && ForeignOps(ops, p)
    ensures HistoryInv(Run(Begin(em, p), ops, p), p)
    decreases |ops|
  {
    if ops == [] {
      BeginHistoryInv(em, p);
    } else {
      var front := ops[..|ops| - 1];
      assert ForeignOps(front, p);
      RunKeepsInv(em, front, p);
      RunKeepsHistoryInv(em, front, p);
      StepKeepsHistoryInv(Run(Begin(em, p), front, p), ops[|ops| - 1], p);
    }
  }

  /** Of one emission's calls, ours is the one whose event it is. */
  lemma {:induction false} FirstOursOfCalls(ls: seq<Listener>, args: seq<Arg>, p: Wait)
    ensures var first := FirstOurs(Calls(ls, args), p);
            && (first == [] <==> p.ResolveWrapper() !in ls && p.RejectWrapper() !in ls)
            && (first != [] ==> |first| == 1 && first[0].args == args && first[0].listener in ls &&
                                p.Ours(first[0].listener))
    decreases |ls|
  {
    if ls == [] {
    } else {
      assert Calls(ls, args)[1..] == Calls(ls[1..], args);
      assert ls == [ls[0]] + ls[1..];
      FirstOursOfCalls(ls[1..], args, p);
    }
  }

  /** The first call of ours that is due comes from the first emission that found one of ours. */
  lemma {:induction false} FirstDueIsFirstHit(emitted: seq<Emit>, p: Wait)
    requires EmittedInv(emitted, p)
    ensures var first, hit := FirstOurs(Due(emitted), p), FirstHit(emitted, p);
            && (first == [] <==> hit == [])
            && (first != [] ==> Settle(Pending, first[0].listener, first[0].args, p) == Outcome(hit[0], p))
            && (hit != [] ==> hit[0] in emitted && (hit[0].event == p.name || hit[0].event == ERROR))
    decreases |emitted|
  {
    if emitted == [] {
    } else {
      var front, last := emitted[..|emitted| - 1], emitted[|emitted| - 1];
      FirstDueIsFirstHit(front, p);
      FirstOursOfCalls(last.listeners, last.args, p);
      FirstOursAppend(Due(front), Calls(last.listeners, last.args), p);
      assert EmitInv(last, p);
    }
  }

  // ---------------------------------------------------------------------------
  // Which emissions find one of our wrappers
  // ---------------------------------------------------------------------------

  /** `removeAllListeners` of an event, or of all. */
  predicate Drops(op: Op, event: EventName) {
    op.OffEverything? || (op.OffAll? && op.event == event)
  }

  /** The events of those `awaited` that are left after the operation. */
  function Left(awaited: set<EventName>, op: Op): set<EventName> {
    match op
    case OffAll(event) => awaited - {event}
    case OffEverything(_) => {}
    case _ => awaited
  }

  /** The events that the call still waits for after the operations. */
  function Awaited(ops: seq<Op>, p: Wait): set<EventName>
    decreases |ops|
  {
    if ops == [] then {p.name, ERROR} else Left(Awaited(ops[..|ops| - 1], p), ops[|ops| - 1])
  }

  /** What a caller can check: the call waits for its two events until one of them is removed. */
  lemma {:induction false} AwaitedUntilDropped(ops: seq<Op>, event: EventName, p: Wait)
    ensures event in Awaited(ops, p) <==>
            (event == p.name || event == ERROR) && forall i :: 0 <= i < |ops| ==> !Drops(ops[i], event)
    decreases |ops|
  {
    if ops == [] {
    } else {
      var front, last := ops[..|ops| - 1], ops[|ops| - 1];
      AwaitedUntilDropped(front, event, p);
      assert forall i :: 0 <= i < |front| ==> front[i] == ops[i];
      assert event in Awaited(ops, p) <==> event in Awaited(front, p) && !Drops(last, event);
    }
  }

  /** The first emission of one of the events, whoever listens. */
  function FirstOf(emitted: seq<Emit>, events: set<EventName>): seq<Emit>
    decreases |emitted|
  {
    if emitted == [] then []
    else
      var front, last := emitted[..|emitted| - 1], emitted[|emitted| - 1];
      if FirstOf(front, events) != [] then FirstOf(front, events)
      else if last.event in events then [last]
      else []
  }

  lemma NextGrows(s: WaitState, op: Op, p: Wait)
    ensures s.em.emitted <= Next(s, op, p).em.emitted
  {
    StepGrows(s.em, op);
    var em := Emission.Next(s.em, op);
    StepGrows(em, Off(p.name, p.Resolve()));
    StepGrows(DoOff(em, p.name, p.Resolve()), Off(ERROR, p.Reject()));
  }

  /**
   * The first emission, after the first of the two listeners has been registered, of an event that is awaited
   * at that moment. The call itself may make it, if it is "newListener" that is awaited: it registers a second
   * listener.
   */
  ghost function FirstAwaited(em: State, ops: seq<Op>, p: Wait): seq<Emit>
    decreases |ops|
  {
    if ops == [] then FirstOf(Begin(em, p).em.emitted[|em.emitted| + 1..], {p.name})
    else
      var front, op := ops[..|ops| - 1], ops[|ops| - 1];
      var s := Run(Begin(em, p), front, p);
      NextGrows(s, op, p);
      if FirstAwaited(em, front, p) != [] then FirstAwaited(em, front, p)
      else FirstOf(Next(s, op, p).em.emitted[|s.em.emitted|..], Awaited(front, p))
  }

  /** An emission of the event would find one of our wrappers. */
  predicate Hears(t: Table, event: EventName, p: Wait) {
    p.ResolveWrapper() in Listeners(t, event) || p.RejectWrapper() in Listeners(t, event)
  }

  ghost predicate Waiting(t: Table, awaited: set<EventName>, p: Wait) {
    forall e :: e in awaited <==> Hears(t, e, p)
  }

  lemma {:induction false} RemoveFirstSpares(ls: seq<Listener>, l: Listener, x: Listener)
    requires !Matches(x, l)
    ensures x in RemoveFirst(ls, l) <==> x in ls
    decreases |ls|
  {
    if ls == [] {
    } else {
      RemoveFirstSpares(ls[1..], l, x);
      assert ls == [ls[0]] + ls[1..];
    }
  }

  lemma AddKeepsWaiting(t: Table, awaited: set<EventName>, event: EventName, l: Listener, prepend: bool, p: Wait)
    requires Waiting(t, awaited, p) && !p.Ours(l)
    ensures Waiting(Add(t, event, l, prepend), awaited, p)
  {
    var t' := Add(t, event, l, prepend);
    forall e ensures Hears(t', e, p) <==> Hears(t, e, p) {
      assert forall x :: x in Listeners(t', e) <==> x in Listeners(t, e) || (e == event && x == l);
    }
  }

  lemma OurAddIsHeard(t: Table, awaited: set<EventName>, event: EventName, l: Listener, p: Wait)
    requires Waiting(t, awaited, p) && p.Ours(l)
    ensures Waiting(Add(t, event, l, false), awaited + {event}, p)
  {
    var t' := Add(t, event, l, false);
    forall e ensures Hears(t', e, p) <==> Hears(t, e, p) || e == event {
      assert forall x :: x in Listeners(t', e) <==> x in Listeners(t, e) || (e == event && x == l);
    }
  }

  lemma RemoveKeepsWaiting(t: Table, awaited: set<EventName>, event: EventName, l: Listener, p: Wait)
    requires Waiting(t, awaited, p) && p.Foreign(l)
    ensures Waiting(Remove(t, event, l), awaited, p)
  {
    var t' := Remove(t, event, l);
    RemoveFirstSpares(Listeners(t, event), l, p.ResolveWrapper());
    RemoveFirstSpares(Listeners(t, event), l, p.RejectWrapper());
    forall e ensures Hears(t', e, p) <==> Hears(t, e, p) {
      assert Listeners(t', e) == if e == event then RemoveFirst(Listeners(t, event), l) else Listeners(t, e);
    }
  }

  /** From `a` to `b`, exactly the emissions of the awaited events are hits. */
  ghost predicate Follows(a: seq<Emit>, b: seq<Emit>, awaited: set<EventName>, p: Wait) {
    && a <= b
    && FirstHit(b, p) == if FirstHit(a, p) != [] then FirstHit(a, p) else FirstOf(b[|a|..], awaited)
  }

  lemma FollowsItself(a: seq<Emit>, awaited: set<EventName>, p: Wait)
    ensures Follows(a, a, awaited, p)
  {
  }

  lemma EmitFollows(a: seq<Emit>, em: State, awaited: set<EventName>, event: EventName, args: seq<Arg>, p: Wait)
    requires Waiting(em.table, awaited, p) && Follows(a, em.emitted, awaited, p)
    ensures Follows(a, DoEmit(em, event, args).emitted, awaited, p)
  {
    var b, b' := em.emitted, DoEmit(em, event, args).emitted;
    var more, more' := b[|a|..], b'[|a|..];
    assert b'[..|b|] == b && more'[..|more|] == more;
    assert Hears(em.table, event, p) <==> event in awaited;
  }

  lemma OffFollows(a: seq<Emit>, em: State, awaited: set<EventName>, event: EventName, l: Listener, p: Wait)
    requires Waiting(em.table, awaited, p) && Follows(a, em.emitted, awaited, p) && p.Foreign(l)
    ensures Follows(a, DoOff(em, event, l).emitted, awaited, p) && Waiting(DoOff(em, event, l).table, awaited, p)
  {
    hide Follows, Waiting;
    RemoveKeepsWaiting(em.table, awaited, event, l, p);
    EmitFollows(a, em.(table := Remove(em.table, event, l)), awaited, REMOVE_LISTENER,
                [NameArg(event), ListenerArg(l)], p);
  }

  lemma {:induction false} NoticesFollow(a: seq<Emit>, em: State, awaited: set<EventName>, event: EventName,
                                         ls: seq<Listener>, n: nat, p: Wait)
    requires Waiting(em.table, awaited, p) && Follows(a, em.emitted, awaited, p) && n <= |ls|
    ensures Follows(a, DoNotices(em, event, ls, n).emitted, awaited, p)
    ensures DoNotices(em, event, ls, n).table == em.table
  {
    hide Follows, Waiting;
    if n == 0 {
    } else {
      NoticesFollow(a, em, awaited, event, ls, n - 1, p);
      EmitFollows(a, DoNotices(em, event, ls, n - 1), awaited, REMOVE_LISTENER,
                  [NameArg(event), ListenerArg(ls[n - 1])], p);
    }
  }

  lemma {:induction false} NoticesOfAllFollow(a: seq<Emit>, em: State, awaited: set<EventName>,
                                              names: seq<EventName>, n: nat, p: Wait)
    requires Waiting(em.table, awaited, p) && Follows(a, em.emitted, awaited, p) && n <= |names|
    ensures Follows(a, DoNoticesOfAll(em, names, n).emitted, awaited, p)
    ensures DoNoticesOfAll(em, names, n).table == em.table
  {
    hide Follows, Waiting;
    if n == 0 {
    } else {
      var ls := Listeners(em.table, names[n - 1]);
      NoticesOfAllFollow(a, em, awaited, names, n - 1, p);
      NoticesFollow(a, DoNoticesOfAll(em, names, n - 1), awaited, names[n - 1], ls, |ls|, p);
    }
  }

  lemma RunNextFollows(em: State, awaited: set<EventName>, p: Wait)
    requires Waiting(em.table, awaited, p) && QueueInv(em.queue, p) && !RunsOurs(em, RunNext, p)
    ensures Follows(em.emitted, DoRunNext(em).emitted, awaited, p) && Waiting(DoRunNext(em).table, awaited, p)
  {
    hide Follows, Waiting;
    FollowsItself(em.emitted, awaited, p);
    if em.queue != [] && em.queue[0].ListenerTask? && em.queue[0].call.listener.OnceWrapper? {
      var w := em.queue[0].call.listener;
      OffFollows(em.emitted, em.(queue := em.queue[1..], invoked := em.invoked + [em.queue[0].call]), awaited,
                 w.event, w, p);
    }
  }

  lemma DropIsNotHeard(t: Table, awaited: set<EventName>, event: EventName, p: Wait)
    requires Waiting(t, awaited, p)
    ensures Waiting(t - {event}, awaited - {event}, p) && Waiting(map[], {}, p)
  {
    forall e ensures Hears(t - {event}, e, p) <==> Hears(t, e, p) && e != event {
      assert Listeners(t - {event}, e) == if e == event then [] else Listeners(t, e);
    }
  }

  /** Every step of the others: what finds one of our wrappers is the emissions of the awaited events. */
  lemma StepFollows(em: State, awaited: set<EventName>, op: Op, p: Wait)
    requires Waiting(em.table, awaited, p) && QueueInv(em.queue, p) && ForeignOp(op, p) && !RunsOurs(em, op, p)
    ensures Follows(em.emitted, Emission.Next(em, op).emitted, awaited, p)
    ensures Waiting(Emission.Next(em, op).table, Left(awaited, op), p)
  {
    hide Follows, Waiting;
    FollowsItself(em.emitted, awaited, p);
    match op
    case On(event, l, prepend) =>
      EmitFollows(em.emitted, em, awaited, NEW_LISTENER, [NameArg(event), ListenerArg(l)], p);
      AddKeepsWaiting(em.table, awaited, event, l, prepend, p);
    case Off(event, l) =>
      OffFollows(em.emitted, em, awaited, event, l, p);
    case OffAll(event) =>
      NoticesFollow(em.emitted, em, awaited, event, Listeners(em.table, event), |Listeners(em.table, event)|, p);
      DropIsNotHeard(em.table, awaited, event, p);
    case OffEverything(names) =>
      NoticesOfAllFollow(em.emitted, em, awaited, names, |names|, p);
      DropIsNotHeard(em.table, awaited, ERROR, p);
    case Fire(event, args) =>
      EmitFollows(em.emitted, em, awaited, event, args, p);
    case QueueOther(id) =>
    case RunNext =>
      RunNextFollows(em, awaited, p);
  }

  lemma {:induction false} NoHitOfForeign(emitted: seq<Emit>, p: Wait)
    requires forall k, i :: 0 <= k < |emitted| && 0 <= i < |emitted[k].listeners| ==> !p.Ours(emitted[k].listeners[i])
    ensures FirstHit(emitted, p) == []
    decreases |emitted|
  {
    if emitted == [] {
    } else {
      var front, last := emitted[..|emitted| - 1], emitted[|emitted| - 1];
      assert forall k :: 0 <= k < |front| ==> front[k] == emitted[k];
      NoHitOfForeign(front, p);
      assert forall l :: l in last.listeners ==> !p.Ours(l);
    }
  }

  /** The listener for `name` is registered; nothing is found while it is announced. */
  lemma FirstListenerWaits(em: State, p: Wait)
    requires p.Valid() && Untouched(em, p)
    ensures var em' := DoOn(em, p.name, p.ResolveWrapper(), false);
      FirstHit(em'.emitted, p) == [] && Waiting(em'.table, {p.name}, p) && |em'.emitted| == |em.emitted| + 1
  {
    var w := p.ResolveWrapper();
    NoHitOfForeign(em.emitted, p);
    UntouchedStore(em, p);
    assert Waiting(em.table, {}, p);
    hide Waiting, Untouched;
    FollowsItself(em.emitted, {}, p);
    EmitFollows(em.emitted, em, {}, NEW_LISTENER, [NameArg(p.name), ListenerArg(w)], p);
    OurAddIsHeard(em.table, {}, p.name, w, p);
    NothingOfNoEvent(DoOn(em, p.name, w, false).emitted[|em.emitted|..]);
    assert {} + {p.name} == {p.name};
  }

  /** The listener for "error" is registered; announcing it is heard if that is what is awaited. */
  lemma SecondListenerWaits(em: State, p: Wait)
    requires FirstHit(em.emitted, p) == [] && Waiting(em.table, {p.name}, p)
    ensures var em' := DoOn(em, ERROR, p.RejectWrapper(), false);
      && |em.emitted| <= |em'.emitted| && FirstHit(em'.emitted, p) == FirstOf(em'.emitted[|em.emitted|..], {p.name})
      && Waiting(em'.table, {p.name, ERROR}, p)
  {
    hide Waiting;
    FollowsItself(em.emitted, {p.name}, p);
    EmitFollows(em.emitted, em, {p.name}, NEW_LISTENER, [NameArg(ERROR), ListenerArg(p.RejectWrapper())], p);
    OurAddIsHeard(em.table, {p.name}, ERROR, p.RejectWrapper(), p);
    assert {p.name} + {ERROR} == {p.name, ERROR};
  }

  /** The call registers its listeners. */
  lemma BeginWaits(em: State, p: Wait)
    requires p.Valid() && Untouched(em, p)
    ensures FirstHit(Begin(em, p).em.emitted, p) == FirstAwaited(em, [], p)
    ensures Waiting(Begin(em, p).em.table, {p.name, ERROR}, p)
  {
    var em' := DoOn(em, p.name, p.ResolveWrapper(), false);
    FirstListenerWaits(em, p);
    hide Waiting, Untouched, FirstHit, DoOn;
    if p.name != ERROR {
      SecondListenerWaits(em', p);
    } else {
      assert {p.name, ERROR} == {p.name};
      assert em'.emitted[|em.emitted| + 1..] == [];
    }
  }

  lemma {:induction false} NothingOfNoEvent(emitted: seq<Emit>)
    ensures FirstOf(emitted, {}) == []
    decreases |emitted|
  {
    if emitted == [] {
    } else {
      NothingOfNoEvent(emitted[..|emitted| - 1]);
    }
  }

  lemma {:induction false} HitStays(a: seq<Emit>, b: seq<Emit>, p: Wait)
    requires a <= b && FirstHit(a, p) != []
    ensures FirstHit(b, p) == FirstHit(a, p)
    decreases |b|
  {
    if a == b {
    } else {
      HitStays(a, b[..|b| - 1], p);
    }
  }

  /** One of ours is only called after an emission has found it. */
  lemma RunsOursAfterHit(s: WaitState, op: Op, p: Wait)
    requires HistoryInv(s, p) && RunsOurs(s.em, op, p)
    ensures FirstHit(s.em.emitted, p) != []
  {
    FirstOursAppend(s.em.invoked, CallsIn(s.em.queue), p);
    assert CallsIn(s.em.queue)[0] == s.em.queue[0].call;
    FirstDueIsFirstHit(s.em.emitted, p);
  }

  /** Over every run, the first hit is the first emission of an awaited event. */
  lemma {:induction false} FirstHitIsFirstAwaited(em: State, ops: seq<Op>, p: Wait)
    requires p.Valid() && Untouched(em, p) && ForeignOps(ops, p)
    ensures var s := Run(Begin(em, p), ops, p);
      && FirstHit(s.em.emitted, p) == FirstAwaited(em, ops, p)
      && (FirstHit(s.em.emitted, p) == [] ==> Waiting(s.em.table, Awaited(ops, p), p))
    decreases |ops|
  {
    hide FirstHit, Waiting, Untouched, Begin, ForeignOp, Inv, HistoryInv;
    if ops == [] {
      BeginWaits(em, p);
    } else {
      var front, op := ops[..|ops| - 1], ops[|ops| - 1];
      var s := Run(Begin(em, p), front, p);
      FirstHitIsFirstAwaited(em, front, p);
      RunKeepsInv(em, front, p);
      RunKeepsHistoryInv(em, front, p);
      FirstHitStep(s, Awaited(front, p), op, p);
    }
  }

  lemma FirstHitStep(s: WaitState, awaited: set<EventName>, op: Op, p: Wait)
    requires p.Valid() && Inv(s, p) && HistoryInv(s, p) && ForeignOp(op, p)
    requires FirstHit(s.em.emitted, p) == [] ==> Waiting(s.em.table, awaited, p)
    ensures var t := Next(s, op, p);
      && s.em.emitted <= t.em.emitted
      && FirstHit(t.em.emitted, p) == (if FirstHit(s.em.emitted, p) != [] then FirstHit(s.em.emitted, p)
                                       else FirstOf(t.em.emitted[|s.em.emitted|..], awaited))
      && (FirstHit(t.em.emitted, p) == [] ==> Waiting(t.em.table, Left(awaited, op), p))
  {
    hide FirstHit, Waiting, HistoryInv;
    NextGrows(s, op, p);
    if FirstHit(s.em.emitted, p) != [] {
      HitStays(s.em.emitted, Next(s, op, p).em.emitted, p);
    } else {
      assert !RunsOurs(s.em, op, p) by {
        if RunsOurs(s.em, op, p) {
          RunsOursAfterHit(s, op, p);
        }
      }
      StepFollows(s.em, awaited, op, p);
    }
  }

  /**
   * The promise settles by the first emission, after the call, of an event that is still awaited: resolved with
   * the arguments of `name`, or rejected with the first one of "error". It is settled as soon as the queue is
   * drained.
   */
  lemma SettlesByTheFirstEmission(em: State, ops: seq<Op>, p: Wait)
    requires p.Valid() && Untouched(em, p) && ForeignOps(ops, p)
    ensures var s := Run(Begin(em, p), ops, p);
            var first := FirstAwaited(em, ops, p);
            && (s.promise != Pending ==> first != [] && s.promise == Outcome(first[0], p))
            && (first != [] && CallsIn(s.em.queue) == [] ==> s.promise == Outcome(first[0], p))
            && (first != [] ==> first[0] in s.em.emitted && (first[0].event == p.name || first[0].event == ERROR))
            && first == FirstHit(s.em.emitted, p)
  {
    hide Untouched, Begin, Run, FirstAwaited;
    var s := Run(Begin(em, p), ops, p);
    RunKeepsHistoryInv(em, ops, p);
    FirstHitIsFirstAwaited(em, ops, p);
    FirstOursAppend(s.em.invoked, CallsIn(s.em.queue), p);
    FirstDueIsFirstHit(s.em.emitted, p);
    if CallsIn(s.em.queue) == [] {
      assert s.em.invoked + [] == s.em.invoked;
    }
  }

  /** Neither event is removed, nor all of them. */
  ghost predicate NeverDropped(ops: seq<Op>, p: Wait) {
    forall i :: 0 <= i < |ops| ==> !Drops(ops[i], p.name) && !Drops(ops[i], ERROR)
  }

  lemma NeverDroppedFront(ops: seq<Op>, p: Wait)
    requires ops != [] && NeverDropped(ops, p)
    ensures NeverDropped(ops[..|ops| - 1], p)
  {
  }

  lemma {:induction false} FirstOfAppend(a: seq<Emit>, b: seq<Emit>, events: set<EventName>)
    ensures FirstOf(a + b, events) == if FirstOf(a, events) != [] then FirstOf(a, events) else FirstOf(b, events)
    decreases |b|
  {
    if b == [] {
      assert a + b == a;
    } else {
      assert (a + b)[..|a + b| - 1] == a + b[..|b| - 1];
      FirstOfAppend(a, b[..|b| - 1], events);
    }
  }

  /** What the call itself emits once it listens to `name` is no emission of "error". */
  lemma OwnNoticeIsNoError(em: State, p: Wait)
    ensures var emitted := Begin(em, p).em.emitted;
      && |em.emitted| < |emitted|
      && FirstOf(emitted[|em.emitted| + 1..], {p.name}) == FirstOf(emitted[|em.emitted| + 1..], {p.name, ERROR})
  {
    var own := Begin(em, p).em.emitted[|em.emitted| + 1..];
    if p.name == ERROR {
      assert own == [];
    } else {
      assert |own| == 1 && own[0].event == NEW_LISTENER && own[..0] == [];
    }
  }

  /**
   * Unless `removeAllListeners` is called for one of the two events or for all, it is the first emission of
   * either event since the listener for `name` was registered.
   */
  lemma {:induction false} FirstOfEitherEvent(em: State, ops: seq<Op>, p: Wait)
    requires NeverDropped(ops, p)
    ensures var emitted := Run(Begin(em, p), ops, p).em.emitted;
      |em.emitted| < |emitted| && FirstAwaited(em, ops, p) == FirstOf(emitted[|em.emitted| + 1..], {p.name, ERROR})
    decreases |ops|
  {
    hide Begin, Next, FirstOf, Awaited, NeverDropped;
    OwnNoticeIsNoError(em, p);
    if ops == [] {
    } else {
      var n, front, op := |em.emitted| + 1, ops[..|ops| - 1], ops[|ops| - 1];
      var s := Run(Begin(em, p), front, p);
      NeverDroppedFront(ops, p);
      FirstOfEitherEvent(em, front, p);
      NextGrows(s, op, p);
      var all := Next(s, op, p).em.emitted;
      FirstOfAppend(s.em.emitted[n..], all[|s.em.emitted|..], {p.name, ERROR});
      assert all[n..] == s.em.emitted[n..] + all[|s.em.emitted|..];
      BothAwaited(front, p);
    }
  }

  lemma BothAwaited(ops: seq<Op>, p: Wait)
    requires NeverDropped(ops, p)
    ensures Awaited(ops, p) == {p.name, ERROR}
  {
    forall event ensures event in Awaited(ops, p) <==> event in {p.name, ERROR} {
      AwaitedUntilDropped(ops, event, p);
    }
  }

  /**
   * The exact condition: an emission of either event, if none was awaited before it, settles the promise if and
   * only if no `removeAllListeners` since the call was for that event or for all.
   */
  lemma EmissionSettlesUnlessDropped(em: State, ops: seq<Op>, event: EventName, args: seq<Arg>, p: Wait)
    requires FirstAwaited(em, ops, p) == [] && (event == p.name || event == ERROR)
    ensures var first := FirstAwaited(em, ops + [Fire(event, args)], p);
      && (first != [] <==> forall i :: 0 <= i < |ops| ==> !Drops(ops[i], event))
      && (first != [] ==> Outcome(first[0], p) == if event == p.name then Resolved(args) else Rejected(Reason(args)))
  {
    hide Begin, Awaited;
    var all := ops + [Fire(event, args)];
    assert all[..|ops|] == ops && all[|ops|] == Fire(event, args);
    var s := Run(Begin(em, p), ops, p);
    var e := Emit(event, args, Listeners(s.em.table, event), s.em.queue);
    assert Next(s, Fire(event, args), p).em.emitted == s.em.emitted + [e];
    assert (s.em.emitted + [e])[|s.em.emitted|..] == [e];
    assert FirstOf([e], Awaited(ops, p)) == if event in Awaited(ops, p) then [e] else [] by {
      assert [e][..0] == [];
    }
    AwaitedUntilDropped(ops, event, p);
    NextGrows(s, Fire(event, args), p);
    assert Run(Begin(em, p), all, p) == Next(s, Fire(event, args), p);
    assert FirstAwaited(em, all, p) == FirstOf([e], Awaited(ops, p));
  }

  /** What the first awaited emission settles stays settled. */
  lemma {:induction false} FirstAwaitedStays(em: State, ops: seq<Op>, more: seq<Op>, p: Wait)
    requires FirstAwaited(em, ops, p) != []
    ensures FirstAwaited(em, ops + more, p) == FirstAwaited(em, ops, p)
    decreases |more|
  {
    hide Run, Begin, Awaited;
    if more == [] {
      assert ops + more == ops;
    } else {
      assert (ops + more)[..|ops + more| - 1] == ops + more[..|more| - 1];
      FirstAwaitedStays(em, ops, more[..|more| - 1], p);
    }
  }

  /** So, whatever happens after such an emission, once drained the promise is settled with its arguments. */
  lemma EmissionDecides(em: State, ops: seq<Op>, event: EventName, args: seq<Arg>, more: seq<Op>, p: Wait)
    requires p.Valid() && Untouched(em, p) && ForeignOps(ops + [Fire(event, args)] + more, p)
    requires FirstAwaited(em, ops, p) == [] && (event == p.name || event == ERROR)
    requires forall i :: 0 <= i < |ops| ==> !Drops(ops[i], event)
    ensures var s := Run(Begin(em, p), ops + [Fire(event, args)] + more, p);
      CallsIn(s.em.queue) == [] ==> s.promise == if event == p.name then Resolved(args) else Rejected(Reason(args))
  {
    hide Untouched, Begin, Run, FirstAwaited, CallsIn;
    EmissionSettlesUnlessDropped(em, ops, event, args, p);
    FirstAwaitedStays(em, ops + [Fire(event, args)], more, p);
    SettlesByTheFirstEmission(em, ops + [Fire(event, args)] + more, p);
  }

  /** With its event removed before it is emitted, the promise stays pending although everything has been run. */
  lemma DroppedListenerNeverSettles(p: Wait, args: seq<Arg>)
    requires p.Valid() && p.name !in {ERROR, NEW_LISTENER, REMOVE_LISTENER} && !AboutOurs(args, p)
    ensures var s := Run(Begin(EMPTY, p), [OffAll(p.name)] + [Fire(p.name, args)], p);
      s.promise == Pending && s.em.queue == []
  {
    var off, fire := OffAll(p.name), Fire(p.name, args);
    var begun := Begin(EMPTY, p);
    BeginOfEmpty(p);
    DropOfLone(begun.em, p);
    FireUnheard(DoOffAll(begun.em, p.name), p.name, args);
    hide Begin, DoOffAll, DoEmit;
    RunOfTwo(begun, off, fire, p);
  }

  lemma RunOfTwo(s: WaitState, first: Op, second: Op, p: Wait)
    ensures Run(s, [first] + [second], p) == Next(Next(s, first, p), second, p)
  {
    hide Next;
    assert [first] + [second] == [first, second] && [first, second][..1] == [first] && [first][..0] == [];
    assert Run(s, [first], p) == Next(Run(s, [], p), first, p);
  }

  lemma FireUnheard(em: State, event: EventName, args: seq<Arg>)
    requires em.queue == [] && Listeners(em.table, event) == []
    ensures DoEmit(em, event, args).queue == []
  {
  }

  lemma BeginOfEmpty(p: Wait)
    requires p.name != ERROR && p.name != NEW_LISTENER
    ensures var s := Begin(EMPTY, p);
      s.em.table == map[p.name := [p.ResolveWrapper()], ERROR := [p.RejectWrapper()]] &&
      s.em.queue == [] && s.promise == Pending
  {
    var em := DoOn(EMPTY, p.name, p.ResolveWrapper(), false);
    assert Listeners(EMPTY.table, p.name) + [p.ResolveWrapper()] == [p.ResolveWrapper()];
    assert em.table == map[p.name := [p.ResolveWrapper()]] && em.queue == [];
    assert Listeners(em.table, ERROR) + [p.RejectWrapper()] == [p.RejectWrapper()];
  }

  lemma DropOfLone(em: State, p: Wait)
    requires em.table == map[p.name := [p.ResolveWrapper()], ERROR := [p.RejectWrapper()]] && em.queue == []
    requires p.name !in {ERROR, REMOVE_LISTENER}
    ensures DoOffAll(em, p.name).queue == [] && Listeners(DoOffAll(em, p.name).table, p.name) == []
  {
    var ls := [p.ResolveWrapper()];
    assert DoNotices(em, p.name, ls, 0) == em;
    assert DoNotices(em, p.name, ls, 1).queue == [];
  }
}
