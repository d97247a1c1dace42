/** Every listener that enters or leaves the store of an emitter is announced, once. */
module Notices {
  import opened EventEmitters
  import opened Emission

  /** The emission announces, as "newListener" or "removeListener", a change of the event's listeners. */
  predicate Announces(e: Emit, notice: EventName, event: EventName) {
    e.event == notice && e.args != [] && e.args[0] == NameArg(event)
  }

  function Announced(emitted: seq<Emit>, notice: EventName, event: EventName): nat
    decreases |emitted|
  {
    if emitted == [] then 0
    else
      var front, last := emitted[..|emitted| - 1], emitted[|emitted| - 1];
      Announced(front, notice, event) + if Announces(last, notice, event) then 1 else 0
  }

  /** Listeners announced as new, less those announced as removed, less those that are there. */
  function Balance(s: State, event: EventName): int {
    Announced(s.emitted, NEW_LISTENER, event) - Announced(s.emitted, REMOVE_LISTENER, event)
    - |Listeners(s.table, event)|
  }

  ghost predicate Distinct(names: seq<EventName>) {
    forall i, j :: 0 <= i < j < |names| ==> names[i] != names[j]
  }

  /** The enumeration of the store names each event once. */
  ghost predicate Enumerates(names: seq<EventName>, t: Table) {
    Distinct(names) && forall e :: e in t <==> e in names
  }

  /** Nobody emits the two notices by hand, and V8 enumerates the whole store. */
  ghost predicate Regular(s: State, op: Op) {
    && (op.Fire? ==> op.event != NEW_LISTENER && op.event != REMOVE_LISTENER)
    && (op.OffEverything? ==> Enumerates(op.names, s.table))
  }

  lemma AnnouncedByEmit(s: State, event: EventName, args: seq<Arg>, notice: EventName, name: EventName)
    ensures Announced(DoEmit(s, event, args).emitted, notice, name) ==
            Announced(s.emitted, notice, name) +
            if event == notice && args != [] && args[0] == NameArg(name) then 1 else 0
  {
    var t := DoEmit(s, event, args);
    assert t.emitted[..|s.emitted|] == s.emitted;
  }

  lemma OnBalances(s: State, event: EventName, l: Listener, prepend: bool, name: EventName)
    ensures Balance(DoOn(s, event, l, prepend), name) == Balance(s, name)
  {
    var args := [NameArg(event), ListenerArg(l)];
    AnnouncedByEmit(s, NEW_LISTENER, args, NEW_LISTENER, name);
    AnnouncedByEmit(s, NEW_LISTENER, args, REMOVE_LISTENER, name);
    hide Announced;
  }

  lemma OffBalances(s: State, event: EventName, l: Listener, name: EventName)
    ensures Balance(DoOff(s, event, l), name) == Balance(s, name)
  {
    if HasMatch(Listeners(s.table, event), l) {
      var args, removed := [NameArg(event), ListenerArg(l)], s.(table := Remove(s.table, event, l));
      RemoveFirstIsShorter(Listeners(s.table, event), l);
      AnnouncedByEmit(removed, REMOVE_LISTENER, args, NEW_LISTENER, name);
      AnnouncedByEmit(removed, REMOVE_LISTENER, args, REMOVE_LISTENER, name);
      hide Announced, HasMatch;
    }
  }

  /** The notices of an event, one for each of its listeners. */
  lemma {:induction false} NoticesAnnounce(s: State, event: EventName, ls: seq<Listener>, n: nat, name: EventName)
    requires n <= |ls|
    ensures var t := DoNotices(s, event, ls, n);
      && t.table == s.table
      && Announced(t.emitted, NEW_LISTENER, name) == Announced(s.emitted, NEW_LISTENER, name)
      && Announced(t.emitted, REMOVE_LISTENER, name) ==
         Announced(s.emitted, REMOVE_LISTENER, name) + if name == event then n else 0
  {
    hide Announced, DoEmit;
    NoticesAgree(s, event, ls, n);
    if n == 0 {
    } else {
      var front, args := DoNotices(s, event, ls, n - 1), [NameArg(event), ListenerArg(ls[n - 1])];
      NoticesAnnounce(s, event, ls, n - 1, name);
      AnnouncedByEmit(front, REMOVE_LISTENER, args, NEW_LISTENER, name);
      AnnouncedByEmit(front, REMOVE_LISTENER, args, REMOVE_LISTENER, name);
    }
  }

  lemma {:induction false} NoticesOfAllAnnounce(s: State, names: seq<EventName>, n: nat, name: EventName)
    requires n <= |names| && Distinct(names)
    ensures var t := DoNoticesOfAll(s, names, n);
      && t.table == s.table
      && Announced(t.emitted, NEW_LISTENER, name) == Announced(s.emitted, NEW_LISTENER, name)
      && Announced(t.emitted, REMOVE_LISTENER, name) ==
         Announced(s.emitted, REMOVE_LISTENER, name) + if name in names[..n] then |Listeners(s.table, name)| else 0
  {
    hide Announced, DoNotices;
    if n == 0 {
    } else {
      var front, event := DoNoticesOfAll(s, names, n - 1), names[n - 1];
      var ls := Listeners(s.table, event);
      NoticesOfAllAnnounce(s, names, n - 1, name);
      NoticesAnnounce(front, event, ls, |ls|, name);
      assert names[..n] == names[..n - 1] + [event];
    }
  }

  lemma OffEverythingBalances(s: State, names: seq<EventName>, name: EventName)
    requires Enumerates(names, s.table)
    ensures Balance(DoOffEverything(s, names), name) == Balance(s, name)
  {
    NoticesOfAllAnnounce(s, names, |names|, name);
    assert names[..|names|] == names;
  }

  lemma OffAllBalances(s: State, event: EventName, name: EventName)
    ensures Balance(DoOffAll(s, event), name) == Balance(s, name)
  {
    var ls := Listeners(s.table, event);
    NoticesAnnounce(s, event, ls, |ls|, name);
  }

  lemma StepBalances(s: State, op: Op, name: EventName)
    requires Regular(s, op)
    ensures Balance(Next(s, op), name) == Balance(s, name)
  {
    hide Announced;
    match op
    case On(event, l, prepend) => OnBalances(s, event, l, prepend, name);
    case Off(event, l) => OffBalances(s, event, l, name);
    case OffAll(event) => OffAllBalances(s, event, name);
    case OffEverything(names) => OffEverythingBalances(s, names, name);
    case Fire(event, args) =>
      AnnouncedByEmit(s, event, args, NEW_LISTENER, name);
      AnnouncedByEmit(s, event, args, REMOVE_LISTENER, name);
    case QueueOther(id) =>
    case RunNext =>
      if s.queue != [] && s.queue[0].ListenerTask? && s.queue[0].call.listener.OnceWrapper? {
        var w := s.queue[0].call.listener;
        OffBalances(s.(queue := s.queue[1..], invoked := s.invoked + [s.queue[0].call]), w.event, w, name);
      }
  }

  ghost predicate RegularRun(s: State, ops: seq<Op>) {
    forall n :: 0 <= n < |ops| ==> Regular(Run(s, ops[..n]), ops[n])
  }

  /**
   * Conservation: over every run, an event has as many listeners more than before as "newListener" was emitted
   * for it more often than "removeListener". So every listener is announced when it comes and when it goes,
   * whatever makes it go.
   */
  lemma {:induction false} EveryListenerIsAnnounced(s: State, ops: seq<Op>, name: EventName)
    requires RegularRun(s, ops)
    ensures Balance(Run(s, ops), name) == Balance(s, name)
    decreases |ops|
  {
    hide Balance, Next;
    if ops == [] {
    } else {
      var front := ops[..|ops| - 1];
      assert forall n :: 0 <= n < |front| ==> front[..n] == ops[..n] && front[n] == ops[n];
      EveryListenerIsAnnounced(s, front, name);
      assert Regular(Run(s, front), ops[|ops| - 1]);
      StepBalances(Run(s, front), ops[|ops| - 1], name);
    }
  }
}
