/** The event loop moves on: what is queued is run, and an exception ends the run. */
module LoopProgress {
  import opened Pools
  import opened EventLoop

  // ---------------------------------------------------------------------------
  // Work is taken up
  // ---------------------------------------------------------------------------

  predicate HasWork(s: State) {
    s.tasks != [] || s.timers > 0
  }

  /** The main thread is in the loop and no script runs. */
  predicate BetweenScripts(main: Main) {
    Drained(main) || main == AtCheckpoint(BeforeExit)
  }

  /** What the second reads have read so far does not overlook the work. */
  predicate NotOverlooked(s: State) {
    && (s.main.ReadQueue2? ==> s.main.timers || s.tasks != [])
    && (s.main.ReadPool2? ==> s.main.timers || s.main.tasks)
    && (s.main.Decide? ==> s.main.hasWork)
  }

  /** No more than so many steps of the main thread lead to a script, while there is work. */
  function StepsToScript(s: State): nat {
    match s.main
    case Dequeuing => if s.tasks != [] then 1 else 4
    case TimerCheck => if s.timers > 0 then 1 else 15
    case TopCheck => 3
    case Sleeping => 4
    case WaitEnter => 5
    case WaitCheck => 6
    case Decide(_) => 7
    case ReadPool2(_, _) => 8
    case ReadQueue2(_) => 9
    case ReadTimers2 => 10
    case AtCheckpoint(_) => 11
    case ReadPool1 => 12
    case ReadQueue1 => 13
    case ReadTimers1 => 14
    case _ => 0
  }

  /** The main thread has come from `s` to `t` by taking up work: the oldest task, a tick, or a left-over microtask. */
  predicate TakesUp(s: State, t: State) {
    || (t.main == Js(InTask) && !t.caught && s.tasks != [] &&
        t.ran == s.ran + [s.tasks[0]] && t.tasks == s.tasks[1..] && t.microtasks == s.microtasks)
    || (t.main == Js(InTick) && !t.caught && s.timers > 0 &&
        t.ran == s.ran && t.tasks == s.tasks && t.microtasks == s.microtasks)
    || (t.main == Js(InMicrotask(BeforeExit)) && s.microtasks > 0 &&
        t.ran == s.ran && t.tasks == s.tasks && t.microtasks == s.microtasks - 1)
  }

  ghost predicate AtWork(s: State) {
    HasWork(s) && BetweenScripts(s.main) && NotOverlooked(s)
  }

  /** A step of the main thread itself, whose wait may time out. */
  predicate IsOwn(a: Action) {
    a == MainStep || a == WakeMain
  }

  lemma StepIntoScript(s: State)
    requires AtWork(s) && !s.main.Sleeping? && NextMain(s).Js?
    ensures var t := MainNext(s); TakesUp(s, t) && t.side == s.side && t.timers == s.timers
  {
  }

  lemma StepInLoop(s: State)
    requires AtWork(s) && !s.main.Sleeping? && !NextMain(s).Js?
    ensures var t := MainNext(s);
      t == s.(main := t.main) && AtWork(t) && StepsToScript(t) < StepsToScript(s)
  {
  }

  lemma OwnStepNearsScript(s: State)
    requires AtWork(s)
    ensures Enabled(s, OwnStep(s))
    ensures var t := Next(s, OwnStep(s));
      && t.side == s.side && t.timers == s.timers
      && (TakesUp(s, t) || (t == s.(main := t.main) && AtWork(t) && StepsToScript(t) < StepsToScript(s)))
  {
    OwnStepEffect(s);
    hide Next, Enabled, NextMain, MainNext;
    if s.main.Sleeping? {
    } else if NextMain(s).Js? {
      StepIntoScript(s);
    } else {
      StepInLoop(s);
    }
  }

  lemma OwnStepEffect(s: State)
    requires BetweenScripts(s.main)
    ensures Enabled(s, OwnStep(s))
    ensures Next(s, OwnStep(s)) == if s.main.Sleeping? then s.(main := TopCheck) else MainNext(s)
  {
  }

  lemma {:induction false} ScriptIsReached(s: State) returns (run: seq<Action>, t: State)
    requires AtWork(s)
    ensures forall a :: a in run ==> IsOwn(a)
    ensures IsRun(s, run, t) && TakesUp(s, t) && t.side == s.side && t.timers == s.timers
    ensures (s.main.TopCheck? || s.main.Dequeuing?) && s.tasks != [] ==> t.main == Js(InTask)
    ensures s.tasks == [] && s.microtasks == 0 ==> t.main == Js(InTick)
    decreases StepsToScript(s)
  {
    OwnStepNearsScript(s);
    var next := Next(s, OwnStep(s));
    var rest: seq<Action>;
    if TakesUp(s, next) {
      rest, t := [], next;
    } else {
      rest, t := ScriptIsReached(next);
    }
    run := [OwnStep(s)] + rest;
    assert run[1..] == rest;
  }

  /** In a reachable state of a loop that was entered safely nothing is overlooked. */
  lemma NothingIsOverlooked(s: State)
    requires Reachable(s) && s.entrySafe && HasWork(s) && BetweenScripts(s.main)
    ensures AtWork(s)
  {
    ReachableInv(s);
  }

  /**
   * A queued task is run, and a timer gets its tick: from every reachable state of the loop in which there is
   * such work, the steps of the main thread alone lead to a script that takes it up. The queue comes first when
   * the loop is at its top; without a queued task or a left-over microtask it is the tick.
   */
  lemma WorkIsTakenUp(s: State) returns (run: seq<Action>, t: State)
    requires Reachable(s) && s.entrySafe && HasWork(s) && BetweenScripts(s.main)
    ensures forall a :: a in run ==> IsOwn(a)
    ensures IsRun(s, run, t) && TakesUp(s, t) && t.side == s.side && t.timers == s.timers
    ensures s.main.TopCheck? && s.tasks != [] ==> t.main == Js(InTask)
    ensures s.tasks == [] && s.microtasks == 0 ==> t.main == Js(InTick)
  {
    NothingIsOverlooked(s);
    run, t := ScriptIsReached(s);
  }

  // ---------------------------------------------------------------------------
  // In every interleaving
  // ---------------------------------------------------------------------------

  function OwnSteps(run: seq<Action>): nat
    decreases |run|
  {
    if run == [] then 0 else (if IsOwn(run[0]) then 1 else 0) + OwnSteps(run[1..])
  }

  /** The same while workers go on: they may queue more tasks behind those of `s`. */
  predicate TakesUpAmongOthers(s: State, t: State) {
    || (t.main == Js(InTask) && !t.caught && |t.ran| == |s.ran| + 1 && s.ran <= t.ran &&
        (s.tasks != [] ==> t.ran == s.ran + [s.tasks[0]]))
    || (t.main == Js(InTick) && !t.caught && s.timers > 0 && t.ran == s.ran)
    || (t.main == Js(InMicrotask(BeforeExit)) && s.microtasks > 0 && t.ran == s.ran)
  }

  lemma OnlyOwnStep(s: State, a: Action)
    requires AtWork(s) && Enabled(s, a) && IsOwn(a)
    ensures a == OwnStep(s)
  {
  }

  lemma OthersDoNotHinder(s: State, a: Action)
    requires AtWork(s) && Enabled(s, a) && !IsOwn(a)
    ensures var t := Next(s, a);
      && AtWork(t) && StepsToScript(t) <= StepsToScript(s)
      && t.ran == s.ran && s.tasks <= t.tasks && t.timers == s.timers && t.microtasks == s.microtasks
  {
  }

  /** The work of `s` is still there in `t`, and no script has run between them. */
  predicate KeepsWork(s: State, t: State) {
    && t.ran == s.ran && t.timers == s.timers && t.microtasks == s.microtasks
    && (s.tasks != [] ==> t.tasks != [] && t.tasks[0] == s.tasks[0])
  }

  /** Any step reaches a script, or keeps the work and, if it is the main thread's, comes nearer. */
  lemma StepTowardsScript(s: State, a: Action)
    requires AtWork(s) && Enabled(s, a)
    ensures var t := Next(s, a);
      || (IsOwn(a) && TakesUpAmongOthers(s, t))
      || (AtWork(t) && KeepsWork(s, t) && StepsToScript(t) + (if IsOwn(a) then 1 else 0) <= StepsToScript(s))
  {
    if IsOwn(a) {
      OnlyOwnStep(s, a);
      OwnStepNearsScript(s);
    } else {
      OthersDoNotHinder(s, a);
    }
    hide Next, Enabled, AtWork, StepsToScript;
  }

  lemma SameWorkIsTakenUp(s: State, t: State, u: State)
    requires KeepsWork(s, t) && TakesUpAmongOthers(t, u)
    ensures TakesUpAmongOthers(s, u)
  {
  }

  lemma AtWorkIsAway(s: State)
    requires AtWork(s)
    ensures StepsToScript(s) > 0
  {
  }

  lemma {:induction false} ScriptIsReachedInEveryRun(s: State, run: seq<Action>, t: State) returns (n: nat, u: State)
    requires AtWork(s) && IsRun(s, run, t) && OwnSteps(run) >= StepsToScript(s)
    ensures 0 < n <= |run| && IsRun(s, run[..n], u) && TakesUpAmongOthers(s, u)
    decreases |run|
  {
    hide AtWork, StepsToScript, Next, Enabled, KeepsWork, TakesUpAmongOthers;
    AtWorkIsAway(s);
    StepTowardsScript(s, run[0]);
    var next := Next(s, run[0]);
    if IsOwn(run[0]) && TakesUpAmongOthers(s, next) {
      n, u := 1, next;
      assert run[..1][1..] == [];
    } else {
      n, u := ScriptIsReachedInEveryRun(next, run[1..], t);
      n := n + 1;
      assert run[..n][0] == run[0] && run[..n][1..] == run[1..][..n - 1];
      SameWorkIsTakenUp(s, next, u);
    }
  }

  /** Nobody can keep the loop from its work: of any run, fifteen steps of the main thread reach a script. */
  lemma WorkIsTakenUpInEveryRun(s: State, run: seq<Action>, t: State) returns (n: nat, u: State)
    requires Reachable(s) && s.entrySafe && HasWork(s) && BetweenScripts(s.main)
    requires IsRun(s, run, t) && OwnSteps(run) >= 15
    ensures 0 < n <= |run| && IsRun(s, run[..n], u) && TakesUpAmongOthers(s, u)
  {
    NothingIsOverlooked(s);
    n, u := ScriptIsReachedInEveryRun(s, run, t);
  }

  // ---------------------------------------------------------------------------
  // Nothing to do but wait
  // ---------------------------------------------------------------------------

  /** Only the pool is at work, and the main thread has not decided to end. */
  predicate OnlyPoolWorks(s: State) {
    && s.tasks == [] && s.timers == 0 && s.microtasks == 0 && s.side.pool.Pending()
    && BetweenScripts(s.main) && (s.main.Decide? ==> s.main.hasWork)
  }

  function StepsToSleep(main: Main): nat {
    match main
    case Sleeping => 0
    case WaitEnter => 1
    case WaitCheck => 2
    case Decide(_) => 3
    case ReadPool1 => 3
    case ReadPool2(_, _) => 4
    case ReadQueue1 => 4
    case ReadQueue2(_) => 5
    case ReadTimers1 => 5
    case ReadTimers2 => 6
    case TimerCheck => 6
    case TopCheck => 7
    case AtCheckpoint(_) => 7
    case _ => 8
  }

  lemma OwnStepNearsSleep(s: State)
    requires OnlyPoolWorks(s) && !s.main.Sleeping?
    ensures Enabled(s, MainStep)
    ensures var t := Next(s, MainStep);
      t == s.(main := t.main) && OnlyPoolWorks(t) && StepsToSleep(t.main) < StepsToSleep(s.main)
  {
  }

  /** While only the pool works, the main thread goes to sleep instead of spinning. */
  lemma {:induction false} SleepsWhileThePoolWorks(s: State) returns (run: seq<Action>)
    requires OnlyPoolWorks(s)
    ensures forall a :: a in run ==> a == MainStep
    ensures IsRun(s, run, s.(main := Sleeping))
    decreases StepsToSleep(s.main)
  {
    if s.main.Sleeping? {
      run := [];
    } else {
      OwnStepNearsSleep(s);
      var rest := SleepsWhileThePoolWorks(Next(s, MainStep));
      run := [MainStep] + rest;
      assert run[1..] == rest;
    }
  }

  // ---------------------------------------------------------------------------
  // A queued job is run
  // ---------------------------------------------------------------------------

  /**
   * An awake worker alone takes the oldest job, runs it to the queuing of its completion, wakes the main
   * thread, and comes back for the next one.
   */
  lemma OldestJobIsRun(s: State, w: nat) returns (t: State)
    requires w < |s.side.workers| && s.side.workers[w] == Awake && s.side.pool.queue != []
    ensures var job := s.side.pool.queue[0];
      && IsRun(s, [WorkerStep(w), WorkerStep(w), WorkerStep(w), WorkerStep(w)], t)
      && t == s.(main := if s.main == Sleeping then TopCheck else s.main, tasks := s.tasks + [Completion(job)],
                 side := s.side.(pool := s.side.pool.(queue := s.side.pool.queue[1..]),
                                 started := s.side.started + [job], finished := s.side.finished + [job]))
  {
    var a := WorkerStep(w);
    var s1 := Next(s, a);
    var s2 := Next(s1, a);
    var s3 := Next(s2, a);
    t := Next(s3, a);
    FourSteps(s, a);
    assert t.side.workers == s.side.workers;
  }

  lemma FourSteps(s: State, a: Action)
    requires Enabled(s, a) && Enabled(Next(s, a), a) && Enabled(Next(Next(s, a), a), a)
    requires Enabled(Next(Next(Next(s, a), a), a), a)
    ensures IsRun(s, [a, a, a, a], Next(Next(Next(Next(s, a), a), a), a))
  {
    hide Enabled, Next;
    var s1 := Next(s, a);
    var s2 := Next(s1, a);
    var s3 := Next(s2, a);
    var t := Next(s3, a);
    assert [a, a, a, a][1..] == [a, a, a] && [a, a, a][1..] == [a, a] && [a, a][1..] == [a] && [a][1..] == [];
    assert IsRun(s3, [a], t);
    assert IsRun(s2, [a, a], t);
    assert IsRun(s1, [a, a, a], t);
  }

  // ---------------------------------------------------------------------------
  // Exceptions
  // ---------------------------------------------------------------------------

  /** Under the TryCatch of a task or a tick: in its script, or at the checkpoint after it. */
  predicate InTry(main: Main) {
    match main
    case Js(script) => ScriptInTry(script)
    case NotifyPool(script) => ScriptInTry(script)
    case AtCheckpoint(at) => at != BeforeExit
    case _ => false
  }

  predicate ScriptInTry(script: Script) {
    script.InTask? || script.InTick? || (script.InMicrotask? && script.at != BeforeExit)
  }

  predicate LeftWith(main: Main, ok: bool) {
    (main.Exited? || InDestructor(main)) && main.ok == ok
  }

  /** At the end of the checkpoint after a task or a tick, the run ends if and only if there was an exception. */
  lemma CheckpointDecides(s: State)
    requires s.main.AtCheckpoint? && s.main.at != BeforeExit && s.microtasks == 0
    ensures Enabled(s, MainStep)
    ensures Next(s, MainStep).main == Exited(false) <==> s.caught
    ensures !s.caught ==> Drained(Next(s, MainStep).main)
  {
  }

  /** At the checkpoint after a task or a tick, microtasks included. */
  predicate AtInnerCheckpoint(main: Main) {
    InTry(main) && (main.AtCheckpoint? || main.script.InMicrotask?)
  }

  /** An exception has been thrown in a task or a tick: what is left are microtasks, and the end. */
  predicate Doomed(s: State) {
    (s.caught && AtInnerCheckpoint(s.main)) || LeftWith(s.main, false)
  }

  lemma DoomedStep(s: State, a: Action)
    requires Doomed(s) && Enabled(s, a)
    ensures Doomed(Next(s, a)) && Next(s, a).ran == s.ran
  {
  }

  lemma {:induction false} DoomedRun(s: State, run: seq<Action>, t: State)
    requires Doomed(s) && IsRun(s, run, t)
    ensures Doomed(t) && t.ran == s.ran
    decreases |run|
  {
    if run == [] {
    } else {
      DoomedStep(s, run[0]);
      hide Doomed, Next, Enabled;
      DoomedRun(Next(s, run[0]), run[1..], t);
    }
  }

  /**
   * After a throw in the main script, in a task, in a tick, or in a microtask of either, no further task is run
   * and the loop is not entered again, whatever happens: only the microtasks of the same checkpoint are left, and
   * the exit with an error.
   */
  lemma ThrowEndsTheRun(s: State, run: seq<Action>, t: State)
    requires s.main == Js(InMain) || (s.main.Js? && InTry(s.main))
    requires IsRun(Next(s, Throw), run, t)
    ensures t.ran == s.ran
    ensures AtInnerCheckpoint(t.main) || LeftWith(t.main, false)
  {
    DoomedRun(Next(s, Throw), run, t);
  }

  /** The throw itself is taken to the exit by the main thread's own steps, once no microtask is left. */
  lemma ThrowReachesTheExit(s: State)
    requires s.main.Js? && InTry(s.main) && s.microtasks == 0
    ensures IsRun(Next(s, Throw), [MainStep], Next(s, Throw).(main := Exited(false)))
  {
    assert [MainStep][1..] == [];
  }

  /** No exception is on its way, and none has ended the run. */
  predicate Calm(s: State) {
    && (InTry(s.main) ==> !s.caught) && !InMainScript(s.main) && !LeftWith(s.main, false)
  }

  lemma CalmStep(s: State, a: Action)
    requires Calm(s) && Enabled(s, a) && a != Throw && (s.side.pool.stop ==> InDestructor(s.main))
    ensures Calm(Next(s, a))
  {
  }

  lemma {:induction false} CalmRun(s: State, run: seq<Action>, t: State)
    requires Inv(s) && Calm(s) && IsRun(s, run, t) && Throw !in run
    ensures Calm(t)
    decreases |run|
  {
    if run == [] {
    } else {
      CalmStep(s, run[0]);
      StepKeepsInv(s, run[0]);
      hide Inv, Calm, Next, Enabled;
      CalmRun(Next(s, run[0]), run[1..], t);
    }
  }

  /** Conversely, a loop in which nothing throws never ends with an error. */
  lemma OnlyThrowsEndWithAnError(s: State, run: seq<Action>, t: State)
    requires Reachable(s) && s.main == TopCheck && IsRun(s, run, t) && Throw !in run
    ensures !LeftWith(t.main, false)
  {
    ReachableInv(s);
    CalmRun(s, run, t);
  }
}
