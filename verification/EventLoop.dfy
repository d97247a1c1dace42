/**
 * The event loop, the thread pool and the task queue as one machine of interleaved atomic steps: one step
 * for each critical section or unlocked read, with a program counter for the main thread and one for each
 * worker. JavaScript is a nondeterministic script of actions.
 */
module EventLoop {
  import opened Pools

  type Job = nat

  /** A task is the completion of a pool job or something the main thread queued itself. */
  datatype Task = Completion(job: Job) | Local(id: nat)

  datatype Worker =
    | Awake                  // about to lock the pool and test the wait predicate
    | Asleep                 // waiting on the pool's condition variable
    | Running(job: Job)      // in the job, whose completion is not yet queued
    | Pushed(job: Job)       // completion queued, main thread not yet notified
    | Finishing(job: Job)    // back from the job, active count not yet decremented
    | Gone                   // returned from the thread function
  {
    predicate Busy() {
      Running? || Pushed? || Finishing?
    }
  }

  /** Where JavaScript may run on the main thread. */
  datatype Script = InMain | InTask | InTick | InMicrotask(at: Checkpoint)

  datatype Checkpoint = AfterTask | AfterTick | BeforeExit

  datatype Main =
    | Js(script: Script)
    | NotifyPool(script: Script)          // `enqueue` has released the lock and is about to notify
    | AtCheckpoint(at: Checkpoint)
    | TopCheck                            // while (!isEmpty())
    | Dequeuing
    | TimerCheck
    | ReadTimers1 | ReadQueue1 | ReadPool1
    | ReadTimers2 | ReadQueue2(timers: bool) | ReadPool2(timers: bool, tasks: bool) | Decide(hasWork: bool)
    | WaitCheck                           // if (keep_running && isEmpty())
    | WaitEnter                           // wait(): lock and test
    | Sleeping
    | Exited(ok: bool)                    // left the loop; `ok` means keep_running became false
    | Stopping(ok: bool)                  // pool destructor: m_stop is set, notify_all is next
    | Joining(ok: bool)
    | Joined(ok: bool)

  /** The pool with its threads, and the history of its jobs. */
  datatype PoolSide = PoolSide(
    pool: Pool<Job>,
    workers: seq<Worker>,
    accepted: seq<Job>,      // in the order of submission
    started: seq<Job>,       // in the order in which workers took them
    finished: seq<Job>)      // released by their worker

  datatype State = State(
    main: Main,
    timers: nat,             // live timers
    microtasks: nat,
    caught: bool,            // the current TryCatch holds an exception
    entrySafe: bool,         // history: the loop was entered in a state with `SafeEntry`
    tasks: seq<Task>,
    ran: seq<Task>,          // history: tasks whose runner the main thread has called
    side: PoolSide)

  datatype Action =
    | MainStep
    | SetTimer | ClearTimer | PushTask(id: nat) | AddMicrotask | Submit(job: Job) | Throw | EndScript
    | NotifyOne(sleeper: nat) | NotifyNobody
    | WakeMain
    | WorkerStep(w: nat) | WakeWorker(w: nat)

  ghost predicate Initial(s: State) {
    && s.main == Js(InMain) && s.timers == 0 && s.microtasks == 0 && s.entrySafe
    && s.tasks == [] && s.ran == []
    && s.side == PoolSide(Pool([], false, 0), s.side.workers, [], [], [])
    && (forall w :: 0 <= w < |s.side.workers| ==> s.side.workers[w] == Awake)
  }

  predicate AllGone(workers: seq<Worker>) {
    forall w :: 0 <= w < |workers| ==> workers[w] == Gone
  }

  predicate NobodyAsleep(workers: seq<Worker>) {
    forall w :: 0 <= w < |workers| ==> workers[w] != Asleep
  }

  ghost predicate Enabled(s: State, a: Action) {
    var workers := s.side.workers;
    match a
    case MainStep => !s.main.Js? && !s.main.NotifyPool? && !s.main.Sleeping? && !s.main.Joined? &&
                     (s.main.Joining? ==> AllGone(workers))
    case SetTimer => s.main.Js?
    case AddMicrotask => s.main.Js?
    case Throw => s.main.Js?
    case EndScript => s.main.Js?
    case PushTask(_) => s.main.Js?
    case ClearTimer => s.main.Js? && s.timers > 0
    case Submit(job) => s.main.Js? && job !in s.side.accepted
    case NotifyOne(w) => s.main.NotifyPool? && w < |workers| && workers[w] == Asleep
    case NotifyNobody => s.main.NotifyPool? && NobodyAsleep(workers)
    case WakeMain => s.main.Sleeping?
    case WorkerStep(w) => w < |workers| && workers[w] != Asleep && workers[w] != Gone
    case WakeWorker(w) => w < |workers| && workers[w] == Asleep
  }

  // ---------------------------------------------------------------------------
  // Steps of the main thread
  // ---------------------------------------------------------------------------

  function AfterCheckpoint(caught: bool, at: Checkpoint): Main {
    match at
    case AfterTask => if caught then Exited(false) else TopCheck
    case AfterTick => if caught then Exited(false) else ReadTimers1
    case BeforeExit => ReadTimers2
  }

  /** Where the main thread is after its next step. */
  function NextMain(s: State): Main {
    match s.main
    case TopCheck => if s.tasks != [] then Dequeuing else TimerCheck
    case Dequeuing => if s.tasks == [] then TopCheck else Js(InTask)
    case AtCheckpoint(at) => if s.microtasks > 0 then Js(InMicrotask(at)) else AfterCheckpoint(s.caught, at)
    case TimerCheck => if s.timers > 0 then Js(InTick) else ReadTimers1
    case ReadTimers1 => if s.timers > 0 then WaitCheck else ReadQueue1
    case ReadQueue1 => if s.tasks != [] then WaitCheck else ReadPool1
    case ReadPool1 => if s.side.pool.Pending() then WaitCheck else AtCheckpoint(BeforeExit)
    case ReadTimers2 => ReadQueue2(s.timers > 0)
    case ReadQueue2(timers) => ReadPool2(timers, s.tasks != [])
    case ReadPool2(timers, tasks) => Decide(timers || tasks || s.side.pool.Pending())
    case Decide(hasWork) => if hasWork then WaitCheck else Exited(true)
    case WaitCheck => if s.tasks == [] then WaitEnter else TopCheck
    case WaitEnter => if s.tasks != [] then TopCheck else Sleeping
    case Exited(ok) => Stopping(ok)
    case Stopping(ok) => Joining(ok)
    case Joining(ok) => Joined(ok)
    case _ => s.main
  }

  /** `notify_all` */
  function AllAwake(workers: seq<Worker>): seq<Worker>
    decreases |workers|
  {
    if workers == [] then []
    else
      var last := workers[|workers| - 1];
      AllAwake(workers[..|workers| - 1]) + [if last == Asleep then Awake else last]
  }

  function Stopped(side: PoolSide): PoolSide {
    side.(pool := side.pool.(stop := true))
  }

  function NotifiedAll(side: PoolSide): PoolSide {
    side.(workers := AllAwake(side.workers))
  }

  /** What the main thread's step does to the pool: only its destructor touches it. */
  function MainSide(main: Main, side: PoolSide): PoolSide {
    if main.Exited? then Stopped(side) else if main.Stopping? then NotifiedAll(side) else side
  }

  predicate TakesTask(s: State) {
    s.main.Dequeuing? && s.tasks != []
  }

  predicate TakesMicrotask(s: State) {
    s.main.AtCheckpoint? && s.microtasks > 0
  }

  /** A task and a tick each run under a TryCatch of their own. */
  predicate OpensTry(s: State) {
    TakesTask(s) || (s.main.TimerCheck? && s.timers > 0)
  }

  function MainNext(s: State): State {
    s.(main := NextMain(s),
       side := MainSide(s.main, s.side),
       tasks := if TakesTask(s) then s.tasks[1..] else s.tasks,
       ran := if TakesTask(s) then s.ran + [s.tasks[0]] else s.ran,
       microtasks := if TakesMicrotask(s) then s.microtasks - 1 else s.microtasks,
       caught := if OpensTry(s) then false else s.caught)
  }

  function AfterScript(script: Script): Main {
    match script
    case InMain => TopCheck
    case InTask => AtCheckpoint(AfterTask)
    case InTick => AtCheckpoint(AfterTick)
    case InMicrotask(at) => AtCheckpoint(at)
  }

  /**
   * The loop may be entered like this: no microtask is left over from the main script, or there is work that
   * brings on a checkpoint or keeps a task queued until the second reads, or no worker is there to race with.
   */
  predicate SafeEntry(s: State) {
    || s.microtasks == 0 || s.tasks != [] || s.timers > 0
    || s.side.pool.Pending() || s.side.workers == []
  }

  function ScriptEnded(s: State, script: Script): State {
    s.(main := AfterScript(script),
       entrySafe := if script == InMain then SafeEntry(s) else s.entrySafe)
  }

  // ---------------------------------------------------------------------------
  // Steps of the pool
  // ---------------------------------------------------------------------------

  function Accept(side: PoolSide, job: Job): PoolSide {
    side.(pool := side.pool.Enqueued(job), accepted := side.accepted + [job])
  }

  function SetWorker(side: PoolSide, w: nat, worker: Worker): PoolSide
    requires w < |side.workers|
  {
    side.(workers := side.workers[w := worker])
  }

  /** What a worker's step does to the pool. */
  function WorkerNext(side: PoolSide, w: nat): PoolSide
    requires w < |side.workers|
  {
    match side.workers[w]
    case Awake =>
      (match ClaimOf(side.pool)
       case Sleep => SetWorker(side, w, Asleep)
       case Leave => SetWorker(side, w, Gone)
       case Take(job) =>
         SetWorker(side, w, Running(job)).(pool := side.pool.Taken(), started := side.started + [job]))
    case Running(job) => SetWorker(side, w, Pushed(job))
    case Pushed(job) => SetWorker(side, w, Finishing(job))
    case Finishing(job) =>
      SetWorker(side, w, Awake).(pool := side.pool.Released(), finished := side.finished + [job])
    case Asleep => side
    case Gone => side
  }

  /** A job's last act is to queue its completion. */
  function TasksAfter(side: PoolSide, tasks: seq<Task>, w: nat): seq<Task>
    requires w < |side.workers|
  {
    if side.workers[w].Running? then tasks + [Completion(side.workers[w].job)] else tasks
  }

  function Next(s: State, a: Action): State
    requires Enabled(s, a)
  {
    match a
    case MainStep => MainNext(s)
    case SetTimer => s.(timers := s.timers + 1)
    case ClearTimer => s.(timers := s.timers - 1)
    case PushTask(id) => s.(tasks := s.tasks + [Local(id)])
    case AddMicrotask => s.(microtasks := s.microtasks + 1)
    case Submit(job) =>
      if s.side.pool.stop then s.(caught := true)
      else s.(main := NotifyPool(s.main.script), side := Accept(s.side, job))
    case Throw =>
      // An exception of the main script ends the run before the loop is entered.
      if s.main == Js(InMain) then s.(caught := true, main := Exited(false))
      else ScriptEnded(s.(caught := true), s.main.script)
    case EndScript => ScriptEnded(s, s.main.script)
    case NotifyOne(w) => s.(main := Js(s.main.script), side := SetWorker(s.side, w, Awake))
    case NotifyNobody => s.(main := Js(s.main.script))
    case WakeMain => s.(main := TopCheck)
    case WorkerStep(w) =>
      s.(side := WorkerNext(s.side, w),
         tasks := TasksAfter(s.side, s.tasks, w),
         main := if s.side.workers[w].Pushed? && s.main == Sleeping then TopCheck else s.main)
    case WakeWorker(w) => s.(side := SetWorker(s.side, w, Awake))
  }

  /** A run is a list of actions, each enabled in the state before it. */
  ghost predicate IsRun(s: State, run: seq<Action>, t: State)
    decreases |run|
  {
    if run == [] then t == s
    else Enabled(s, run[0]) && IsRun(Next(s, run[0]), run[1..], t)
  }

  ghost predicate Reachable(s: State) {
    exists init, run :: Initial(init) && IsRun(init, run, s)
  }

  // ---------------------------------------------------------------------------
  // Counting
  // ---------------------------------------------------------------------------

  /** Whether a worker holds a job: from pop to decrement, or only until the completion is queued. */
  function Holds(w: Worker, job: Job, untilPushed: bool): nat {
    match w
    case Running(j) => if j == job then 1 else 0
    case Pushed(j) => if j == job && !untilPushed then 1 else 0
    case Finishing(j) => if j == job && !untilPushed then 1 else 0
    case _ => 0
  }

  function HeldBy(workers: seq<Worker>, job: Job, untilPushed: bool): nat
    decreases |workers|
  {
    if workers == [] then 0
    else HeldBy(workers[..|workers| - 1], job, untilPushed) + Holds(workers[|workers| - 1], job, untilPushed)
  }

  /** The number of workers between pop and decrement. */
  function BusyWorkers(workers: seq<Worker>): nat
    decreases |workers|
  {
    if workers == [] then 0
    else BusyWorkers(workers[..|workers| - 1]) + if workers[|workers| - 1].Busy() then 1 else 0
  }

  /** How often the completion of a job occurs in a list of tasks. */
  function Completions(tasks: seq<Task>, job: Job): nat
    decreases |tasks|
  {
    if tasks == [] then 0
    else Completions(tasks[..|tasks| - 1], job) + if tasks[|tasks| - 1] == Completion(job) then 1 else 0
  }

  lemma {:induction false} HeldByUpdate(workers: seq<Worker>, i: nat, w: Worker, job: Job, untilPushed: bool)
    requires i < |workers|
    ensures HeldBy(workers[i := w], job, untilPushed) + Holds(workers[i], job, untilPushed)
         == HeldBy(workers, job, untilPushed) + Holds(w, job, untilPushed)
    decreases |workers|
  {
    var n := |workers| - 1;
    if i < n {
      assert workers[i := w][..n] == workers[..n][i := w];
      HeldByUpdate(workers[..n], i, w, job, untilPushed);
    } else {
      assert workers[i := w][..n] == workers[..n];
    }
  }

  lemma {:induction false} BusyWorkersUpdate(workers: seq<Worker>, i: nat, w: Worker)
    requires i < |workers|
    ensures BusyWorkers(workers[i := w]) + (if workers[i].Busy() then 1 else 0)
         == BusyWorkers(workers) + (if w.Busy() then 1 else 0)
    decreases |workers|
  {
    var n := |workers| - 1;
    if i < n {
      assert workers[i := w][..n] == workers[..n][i := w];
      BusyWorkersUpdate(workers[..n], i, w);
    } else {
      assert workers[i := w][..n] == workers[..n];
    }
  }

  lemma {:induction false} NobodyBusy(workers: seq<Worker>)
    ensures BusyWorkers(workers) == 0 <==> forall w :: 0 <= w < |workers| ==> !workers[w].Busy()
    decreases |workers|
  {
    if workers == [] {
    } else {
      var n := |workers| - 1;
      NobodyBusy(workers[..n]);
      assert forall w :: 0 <= w < n ==> workers[..n][w] == workers[w];
    }
  }

  lemma {:induction false} HeldByNobody(workers: seq<Worker>, job: Job, untilPushed: bool)
    requires forall w :: 0 <= w < |workers| ==> !workers[w].Busy()
    ensures HeldBy(workers, job, untilPushed) == 0
    decreases |workers|
  {
    if workers == [] {
    } else {
      HeldByNobody(workers[..|workers| - 1], job, untilPushed);
    }
  }

  lemma {:induction false} AllAwakeIsAwake(workers: seq<Worker>)
    ensures |AllAwake(workers)| == |workers|
    ensures forall w :: 0 <= w < |workers| ==>
                          AllAwake(workers)[w] == if workers[w] == Asleep then Awake else workers[w]
    decreases |workers|
  {
    if workers == [] {
    } else {
      var n := |workers| - 1;
      AllAwakeIsAwake(workers[..n]);
      assert AllAwake(workers)[..n] == AllAwake(workers[..n]);
      assert forall w :: 0 <= w < n ==> workers[..n][w] == workers[w];
    }
  }

  lemma {:induction false} HeldByAllAwake(workers: seq<Worker>, job: Job, untilPushed: bool)
    ensures HeldBy(AllAwake(workers), job, untilPushed) == HeldBy(workers, job, untilPushed)
    ensures BusyWorkers(AllAwake(workers)) == BusyWorkers(workers)
    decreases |workers|
  {
    if workers == [] {
    } else {
      var front := AllAwake(workers[..|workers| - 1]);
      assert AllAwake(workers)[..|front|] == front;
      HeldByAllAwake(workers[..|workers| - 1], job, untilPushed);
    }
  }

  lemma CompletionsSnoc(tasks: seq<Task>, t: Task, job: Job)
    ensures Completions(tasks + [t], job) == Completions(tasks, job) + if t == Completion(job) then 1 else 0
  {
    assert (tasks + [t])[..|tasks|] == tasks;
  }

  lemma {:induction false} CompletionsHead(tasks: seq<Task>, job: Job)
    requires tasks != []
    ensures Completions(tasks, job) == Completions(tasks[1..], job) + if tasks[0] == Completion(job) then 1 else 0
    decreases |tasks|
  {
    if |tasks| > 1 {
      var n := |tasks| - 1;
      assert tasks[..n][1..] == tasks[1..][..n - 1];
      CompletionsHead(tasks[..n], job);
    } else {
      assert tasks[..0] == tasks[1..];
    }
  }

  // ---------------------------------------------------------------------------
  // Invariants
  // ---------------------------------------------------------------------------

  ghost predicate Distinct(jobs: seq<Job>) {
    forall i, j :: 0 <= i < j < |jobs| ==> jobs[i] != jobs[j]
  }

  /** A started job is held by a worker or finished. */
  ghost predicate Conserved(side: PoolSide) {
    forall job :: multiset(side.started)[job] == HeldBy(side.workers, job, false) + multiset(side.finished)[job]
  }

  /** Accepted jobs start in the order of submission; the active count is the number of busy workers. */
  ghost predicate PoolInv(side: PoolSide) {
    && side.accepted == side.started + side.pool.queue
    && Distinct(side.accepted)
    && Conserved(side)
    && side.pool.active == BusyWorkers(side.workers)
  }

  /** Every started job's completion is still to be queued, is queued, or has been run. */
  ghost predicate HandedOver(side: PoolSide, tasks: seq<Task>, ran: seq<Task>) {
    forall job :: multiset(side.started)[job] ==
                  HeldBy(side.workers, job, true) + Completions(tasks, job) + Completions(ran, job)
  }

  ghost predicate SomeoneAwake(workers: seq<Worker>) {
    exists w :: 0 <= w < |workers| && workers[w] != Asleep && workers[w] != Gone
  }

  ghost predicate SomeoneNotifies(workers: seq<Worker>) {
    exists w :: 0 <= w < |workers| && workers[w].Pushed?
  }

  predicate InDestructor(main: Main) {
    main.Stopping? || main.Joining? || main.Joined?
  }

  /** No wake-up is lost. */
  ghost predicate WakeInv(main: Main, tasks: seq<Task>, side: PoolSide) {
    && (side.pool.queue != [] && side.workers != [] ==> main.NotifyPool? || SomeoneAwake(side.workers))
    && (main == Sleeping && tasks != [] ==> SomeoneNotifies(side.workers))
    && (side.pool.stop <==> InDestructor(main))
    && (forall w :: 0 <= w < |side.workers| && side.workers[w] == Gone ==> side.pool.stop && side.pool.queue == [])
    && (main.Joining? || main.Joined? ==> NobodyAsleep(side.workers))
    && (main.Joined? ==> AllGone(side.workers))
  }

  /** The main thread is in the loop, between scripts and with every checkpoint behind it. */
  predicate Drained(main: Main) {
    !main.Js? && !main.NotifyPool? && !main.AtCheckpoint? && !main.Exited? && !InDestructor(main)
  }

  /** The main thread has read "pool idle" and no JavaScript has run since. */
  predicate PoolRead(main: Main) {
    || main == AtCheckpoint(BeforeExit)
    || main.ReadTimers2? || main.ReadQueue2? || main.ReadPool2? || main.Decide?
  }

  /** The main thread has read "no timers" and no JavaScript has run since. */
  predicate TimersRead(main: Main) {
    main.ReadQueue1? || main.ReadPool1? || PoolRead(main)
  }

  predicate LeftQuietly(main: Main) {
    (main.Exited? || InDestructor(main)) && main.ok
  }

  predicate Idle(p: Pool<Job>) {
    p.queue == [] && p.active == 0
  }

  /** Between scripts no microtask is left, so the checkpoint before the second reads runs nothing. */
  ghost predicate MicrotaskInv(main: Main, microtasks: nat) {
    && (Drained(main) || main == AtCheckpoint(BeforeExit) ==> microtasks == 0)
    && main != Js(InMicrotask(BeforeExit)) && main != NotifyPool(InMicrotask(BeforeExit))
  }

  /** What each of the loop's reads still guarantees at the program points after it. */
  ghost predicate ReadInv(s: State) {
    && (TimersRead(s.main) ==> s.timers == 0)
    && (PoolRead(s.main) ==> Idle(s.side.pool))
    && (s.main.ReadQueue2? ==> !s.main.timers)
    && (s.main.ReadPool2? ==> !s.main.timers && (s.main.tasks <==> s.tasks != []))
    && (s.main.Decide? ==> (s.main.hasWork <==> s.tasks != []))
    && (LeftQuietly(s.main) ==> s.timers == 0 && Idle(s.side.pool) && s.tasks == [])
  }

  ghost predicate ExitInv(s: State) {
    MicrotaskInv(s.main, s.microtasks) && ReadInv(s)
  }

  predicate InMainScript(main: Main) {
    main == Js(InMain) || main == NotifyPool(InMain)
  }

  /** The loop has been entered, but neither a script has run in it nor the second reads are under way. */
  predicate BeforeScripts(main: Main) {
    || main.TopCheck? || main.Dequeuing? || main.TimerCheck? || main.ReadTimers1? || main.ReadQueue1?
    || main.ReadPool1? || main.WaitCheck? || main.WaitEnter? || main.Sleeping?
  }

  predicate InLastCheckpoint(main: Main) {
    || main == AtCheckpoint(BeforeExit) || main == Js(InMicrotask(BeforeExit))
    || main == NotifyPool(InMicrotask(BeforeExit))
  }

  predicate InSecondReads(main: Main) {
    main.ReadTimers2? || main.ReadQueue2? || main.ReadPool2? || main.Decide?
  }

  /** Microtasks are left over, but so is work, whose trace the second reads will find. */
  ghost predicate LeftOverWithWork(s: State) {
    s.ran == [] &&
    (|| (BeforeScripts(s.main) && (s.tasks != [] || s.timers > 0 || s.side.accepted != []) &&
         (s.main.ReadTimers1? || s.main.ReadQueue1? || s.main.ReadPool1? ==> s.timers == 0))
     || (InLastCheckpoint(s.main) && s.tasks != [])
     || (InSecondReads(s.main) && s.microtasks == 0 && s.tasks != [] &&
         (s.main.ReadPool2? ==> s.main.tasks) && (s.main.Decide? ==> s.main.hasWork)))
  }

  /** Microtasks are left over, but without workers nothing changes between the second reads. */
  ghost predicate LeftOverAlone(s: State) {
    s.side.workers == [] &&
    (|| BeforeScripts(s.main)
     || InLastCheckpoint(s.main)
     || (InSecondReads(s.main) && s.microtasks == 0 &&
         (s.main.ReadQueue2? ==> (s.main.timers <==> s.timers > 0)) &&
         (s.main.ReadPool2? ==> (s.main.timers <==> s.timers > 0) && (s.main.tasks <==> s.tasks != [])) &&
         (s.main.Decide? ==> (s.main.hasWork <==> s.timers > 0 || s.tasks != [] || s.side.pool.Pending()))))
  }

  ghost predicate Inv(s: State) {
    && PoolInv(s.side)
    && HandedOver(s.side, s.tasks, s.ran)
    && WakeInv(s.main, s.tasks, s.side)
    && (InMainScript(s.main) ==> s.ran == [])
    && (s.entrySafe ==> ExitInv(s) || LeftOverWithWork(s) || LeftOverAlone(s) || InMainScript(s.main))
  }

  lemma InitialInv(s: State)
    requires Initial(s)
    ensures Inv(s)
  {
    NobodyBusy(s.side.workers);
    forall job
      ensures HeldBy(s.side.workers, job, false) == 0 && HeldBy(s.side.workers, job, true) == 0
    {
      HeldByNobody(s.side.workers, job, false);
      HeldByNobody(s.side.workers, job, true);
    }
    assert HandedOver(s.side, s.tasks, s.ran);
  }

  // ---------------------------------------------------------------------------
  // Every step keeps the invariants
  // ---------------------------------------------------------------------------

  lemma SetWorkerKeepsHeld(side: PoolSide, w: nat, worker: Worker)
    requires w < |side.workers| && !side.workers[w].Busy() && !worker.Busy()
    requires PoolInv(side)
    ensures PoolInv(SetWorker(side, w, worker))
    ensures forall job :: HeldBy(SetWorker(side, w, worker).workers, job, true) == HeldBy(side.workers, job, true)
  {
    BusyWorkersUpdate(side.workers, w, worker);
    forall job
      ensures HeldBy(side.workers[w := worker], job, true) == HeldBy(side.workers, job, true)
      ensures HeldBy(side.workers[w := worker], job, false) == HeldBy(side.workers, job, false)
    {
      HeldByUpdate(side.workers, w, worker, job, true);
      HeldByUpdate(side.workers, w, worker, job, false);
    }
  }

  lemma NotifiedAllKeepsHeld(side: PoolSide)
    requires PoolInv(side)
    ensures PoolInv(NotifiedAll(side))
    ensures forall job :: HeldBy(NotifiedAll(side).workers, job, true) == HeldBy(side.workers, job, true)
  {
    HeldByAllAwake(side.workers, 0, true);
    forall job
      ensures HeldBy(AllAwake(side.workers), job, true) == HeldBy(side.workers, job, true)
      ensures HeldBy(AllAwake(side.workers), job, false) == HeldBy(side.workers, job, false)
    {
      HeldByAllAwake(side.workers, job, true);
      HeldByAllAwake(side.workers, job, false);
    }
  }

  lemma AcceptKeepsPoolInv(side: PoolSide, job: Job)
    requires PoolInv(side) && job !in side.accepted
    ensures PoolInv(Accept(side, job))
  {
    assert side.started + (side.pool.queue + [job]) == side.accepted + [job];
  }

  lemma WorkerKeepsOrder(side: PoolSide, w: nat)
    requires PoolInv(side) && w < |side.workers|
    ensures var t := WorkerNext(side, w); t.accepted == side.accepted == t.started + t.pool.queue
  {
    if side.workers[w].Awake? && side.pool.queue != [] {
      assert side.pool.queue == [side.pool.queue[0]] + side.pool.queue[1..];
    }
  }

  lemma MultiplicitySnoc(jobs: seq<Job>, last: Job, job: Job)
    ensures multiset(jobs + [last])[job] == multiset(jobs)[job] + if job == last then 1 else 0
  {
  }

  /** What a worker's step moves: from the queue to the worker, and from the worker to the finished jobs. */
  lemma WorkerMoves(side: PoolSide, w: nat, job: Job)
    requires w < |side.workers|
    ensures var t := WorkerNext(side, w);
            multiset(t.started)[job] - multiset(side.started)[job] ==
            Holds(t.workers[w], job, false) - Holds(side.workers[w], job, false) +
            multiset(t.finished)[job] - multiset(side.finished)[job]
  {
    match side.workers[w]
    case Awake =>
      if side.pool.queue != [] {
        MultiplicitySnoc(side.started, side.pool.queue[0], job);
      }
    case Finishing(j) => MultiplicitySnoc(side.finished, j, job);
    case _ =>
  }

  lemma WorkerKeepsConserved(side: PoolSide, w: nat, job: Job)
    requires Conserved(side) && w < |side.workers|
    ensures var t := WorkerNext(side, w);
            multiset(t.started)[job] == HeldBy(t.workers, job, false) + multiset(t.finished)[job]
  {
    var t := WorkerNext(side, w);
    WorkerMoves(side, w, job);
    assert t.workers == side.workers[w := t.workers[w]];
    HeldByUpdate(side.workers, w, t.workers[w], job, false);
    assert multiset(side.started)[job] == HeldBy(side.workers, job, false) + multiset(side.finished)[job];
  }

  lemma WorkerKeepsActive(side: PoolSide, w: nat)
    requires side.pool.active == BusyWorkers(side.workers) && w < |side.workers|
    ensures var t := WorkerNext(side, w); t.pool.active == BusyWorkers(t.workers)
  {
    BusyWorkersUpdate(side.workers, w, WorkerNext(side, w).workers[w]);
  }

  lemma WorkerKeepsPoolInv(side: PoolSide, w: nat)
    requires PoolInv(side) && w < |side.workers|
    ensures PoolInv(WorkerNext(side, w))
  {
    var t := WorkerNext(side, w);
    WorkerKeepsOrder(side, w);
    WorkerKeepsActive(side, w);
    forall job
      ensures multiset(t.started)[job] == HeldBy(t.workers, job, false) + multiset(t.finished)[job]
    {
      WorkerKeepsConserved(side, w, job);
    }
    assert Conserved(t);
  }

  /** The completion of a job is queued by the step that ends the job. */
  lemma WorkerMovesCompletion(side: PoolSide, tasks: seq<Task>, w: nat, job: Job)
    requires w < |side.workers|
    ensures var t := WorkerNext(side, w);
            multiset(t.started)[job] - multiset(side.started)[job] ==
            Holds(t.workers[w], job, true) - Holds(side.workers[w], job, true) +
            Completions(TasksAfter(side, tasks, w), job) - Completions(tasks, job)
  {
    match side.workers[w]
    case Awake =>
      if side.pool.queue != [] {
        MultiplicitySnoc(side.started, side.pool.queue[0], job);
      }
    case Running(j) => CompletionsSnoc(tasks, Completion(j), job);
    case _ =>
  }

  lemma WorkerHandsOverOne(side: PoolSide, tasks: seq<Task>, ran: seq<Task>, w: nat, job: Job)
    requires HandedOver(side, tasks, ran) && w < |side.workers|
    ensures var t := WorkerNext(side, w);
            multiset(t.started)[job] ==
            HeldBy(t.workers, job, true) + Completions(TasksAfter(side, tasks, w), job) + Completions(ran, job)
  {
    var t := WorkerNext(side, w);
    WorkerMovesCompletion(side, tasks, w, job);
    assert t.workers == side.workers[w := t.workers[w]];
    HeldByUpdate(side.workers, w, t.workers[w], job, true);
    assert multiset(side.started)[job] ==
           HeldBy(side.workers, job, true) + Completions(tasks, job) + Completions(ran, job);
  }

  lemma WorkerHandsOver(side: PoolSide, tasks: seq<Task>, ran: seq<Task>, w: nat)
    requires HandedOver(side, tasks, ran) && w < |side.workers|
    ensures HandedOver(WorkerNext(side, w), TasksAfter(side, tasks, w), ran)
  {
    forall job {
      WorkerHandsOverOne(side, tasks, ran, w, job);
    }
  }

  lemma DequeueHandsOver(side: PoolSide, tasks: seq<Task>, ran: seq<Task>)
    requires HandedOver(side, tasks, ran) && tasks != []
    ensures HandedOver(side, tasks[1..], ran + [tasks[0]])
  {
    forall job
      ensures multiset(side.started)[job] ==
              HeldBy(side.workers, job, true) + Completions(tasks[1..], job) + Completions(ran + [tasks[0]], job)
    {
      assert multiset(side.started)[job] ==
             HeldBy(side.workers, job, true) + Completions(tasks, job) + Completions(ran, job);
      CompletionsHead(tasks, job);
      CompletionsSnoc(ran, tasks[0], job);
    }
  }

  lemma LocalTaskHandsOver(side: PoolSide, tasks: seq<Task>, ran: seq<Task>, id: nat)
    requires HandedOver(side, tasks, ran)
    ensures HandedOver(side, tasks + [Local(id)], ran)
  {
    forall job
      ensures multiset(side.started)[job] ==
              HeldBy(side.workers, job, true) + Completions(tasks + [Local(id)], job) + Completions(ran, job)
    {
      assert multiset(side.started)[job] ==
             HeldBy(side.workers, job, true) + Completions(tasks, job) + Completions(ran, job);
      CompletionsSnoc(tasks, Local(id), job);
    }
  }

  lemma MainSideKeepsJobs(main: Main, side: PoolSide, tasks: seq<Task>, ran: seq<Task>)
    requires PoolInv(side) && HandedOver(side, tasks, ran)
    ensures PoolInv(MainSide(main, side)) && HandedOver(MainSide(main, side), tasks, ran)
  {
    if main.Stopping? {
      NotifiedAllKeepsHeld(side);
    }
  }

  lemma MainKeepsJobs(s: State)
    requires PoolInv(s.side) && HandedOver(s.side, s.tasks, s.ran)
    ensures var t := MainNext(s); PoolInv(t.side) && HandedOver(t.side, t.tasks, t.ran)
  {
    MainSideKeepsJobs(s.main, s.side, s.tasks, s.ran);
    if TakesTask(s) {
      DequeueHandsOver(MainSide(s.main, s.side), s.tasks, s.ran);
    }
  }

  lemma JobsKept(s: State, a: Action)
    requires PoolInv(s.side) && HandedOver(s.side, s.tasks, s.ran) && Enabled(s, a)
    ensures var t := Next(s, a); PoolInv(t.side) && HandedOver(t.side, t.tasks, t.ran)
  {
    match a
    case MainStep => MainKeepsJobs(s);
    case PushTask(id) => LocalTaskHandsOver(s.side, s.tasks, s.ran, id);
    case Submit(job) => AcceptKeepsPoolInv(s.side, job);
    case NotifyOne(w) => SetWorkerKeepsHeld(s.side, w, Awake);
    case WakeWorker(w) => SetWorkerKeepsHeld(s.side, w, Awake);
    case WorkerStep(w) =>
      WorkerKeepsPoolInv(s.side, w);
      WorkerHandsOver(s.side, s.tasks, s.ran, w);
    case _ =>
  }

  lemma NotifyAllKeepsWakeInv(s: State)
    requires WakeInv(s.main, s.tasks, s.side) && s.main.Stopping?
    ensures WakeInv(Joining(s.main.ok), s.tasks, NotifiedAll(s.side))
  {
    var side := NotifiedAll(s.side);
    AllAwakeIsAwake(s.side.workers);
    if SomeoneAwake(s.side.workers) {
      var w :| 0 <= w < |s.side.workers| && s.side.workers[w] != Asleep && s.side.workers[w] != Gone;
      assert side.workers[w] == s.side.workers[w];
    }
  }

  lemma MainKeepsWakeInv(s: State)
    requires WakeInv(s.main, s.tasks, s.side) && Enabled(s, MainStep)
    ensures var t := MainNext(s); WakeInv(t.main, t.tasks, t.side)
  {
    if s.main.Stopping? {
      NotifyAllKeepsWakeInv(s);
    }
  }

  lemma WakingKeepsWakeInv(main: Main, main': Main, tasks: seq<Task>, side: PoolSide, w: nat)
    requires WakeInv(main, tasks, side) && w < |side.workers| && side.workers[w] == Asleep
    requires main' == main || (main.NotifyPool? && main'.Js?)
    ensures WakeInv(main', tasks, SetWorker(side, w, Awake))
  {
    var t := SetWorker(side, w, Awake);
    assert t.workers[w] == Awake;
    if SomeoneNotifies(side.workers) {
      var v :| 0 <= v < |side.workers| && side.workers[v].Pushed?;
      assert t.workers[v].Pushed?;
    }
  }

  lemma WorkerKeepsWakeInv(s: State, w: nat)
    requires PoolInv(s.side) && WakeInv(s.main, s.tasks, s.side) && Enabled(s, WorkerStep(w))
    ensures var t := Next(s, WorkerStep(w)); WakeInv(t.main, t.tasks, t.side)
  {
    var t := Next(s, WorkerStep(w));
    assert t.side.workers == s.side.workers[w := t.side.workers[w]];
    if t.side.pool.queue != [] {
      assert t.side.workers[w] != Asleep && t.side.workers[w] != Gone;
    }
    if t.main == Sleeping && t.tasks != [] && !s.side.workers[w].Running? {
      var v :| 0 <= v < |s.side.workers| && s.side.workers[v].Pushed?;
      assert t.side.workers[v].Pushed?;
    }
    if s.side.workers[w].Running? {
      assert t.side.workers[w].Pushed?;
    }
  }

  lemma WakeKept(s: State, a: Action)
    requires PoolInv(s.side) && WakeInv(s.main, s.tasks, s.side) && Enabled(s, a)
    ensures var t := Next(s, a); WakeInv(t.main, t.tasks, t.side)
  {
    match a
    case MainStep => MainKeepsWakeInv(s);
    case WorkerStep(w) => WorkerKeepsWakeInv(s, w);
    case NotifyOne(w) => WakingKeepsWakeInv(s.main, Js(s.main.script), s.tasks, s.side, w);
    case WakeWorker(w) => WakingKeepsWakeInv(s.main, s.main, s.tasks, s.side, w);
    case NotifyNobody =>
      assert s.side.workers != [] ==> s.side.workers[0] != Asleep;
    case _ =>
  }

  lemma MainKeepsMicrotaskInv(s: State)
    requires MicrotaskInv(s.main, s.microtasks) && Enabled(s, MainStep)
    ensures MicrotaskInv(MainNext(s).main, MainNext(s).microtasks)
  {
  }

  lemma MainKeepsReadInv(s: State)
    requires ExitInv(s) && PoolInv(s.side) && Enabled(s, MainStep)
    ensures ReadInv(MainNext(s))
  {
    assert TimersRead(MainNext(s).main) ==> TimersRead(s.main) || s.main.ReadTimers1?;
  }

  lemma WorkerKeepsExitInv(s: State, w: nat)
    requires ExitInv(s) && PoolInv(s.side) && Enabled(s, WorkerStep(w))
    ensures ExitInv(Next(s, WorkerStep(w)))
  {
    NobodyBusy(s.side.workers);
  }

  lemma ExitKept(s: State, a: Action)
    requires ExitInv(s) && PoolInv(s.side) && Enabled(s, a)
    requires s.main != Js(InMain) && s.main != NotifyPool(InMain)
    ensures ExitInv(Next(s, a))
  {
    match a
    case MainStep =>
      MainKeepsMicrotaskInv(s);
      MainKeepsReadInv(s);
    case WorkerStep(w) => WorkerKeepsExitInv(s, w);
    case _ =>
  }

  /** An idle pool with no completion queued or run has not accepted a job. */
  lemma NothingAccepted(s: State)
    requires PoolInv(s.side) && HandedOver(s.side, s.tasks, s.ran)
    requires !s.side.pool.Pending() && s.tasks == [] && s.ran == []
    ensures s.side.accepted == []
  {
    NobodyBusy(s.side.workers);
    forall job ensures job !in s.side.started {
      HeldByNobody(s.side.workers, job, true);
      assert multiset(s.side.started)[job] ==
             HeldBy(s.side.workers, job, true) + Completions([], job) + Completions([], job);
    }
    NoMembers(s.side.started);
  }

  lemma NoMembers(jobs: seq<Job>)
    requires forall job :: job !in jobs
    ensures jobs == []
  {
    FirstIsMember(jobs);
  }

  lemma FirstIsMember(jobs: seq<Job>)
    ensures jobs != [] ==> jobs[0] in jobs
  {
  }

  lemma {:induction false} BusyWorkerHolds(workers: seq<Worker>)
    requires BusyWorkers(workers) > 0
    ensures exists job :: HeldBy(workers, job, false) > 0
    decreases |workers|
  {
    var front, last := workers[..|workers| - 1], workers[|workers| - 1];
    if last.Busy() {
      assert HeldBy(workers, last.job, false) > 0;
    } else {
      BusyWorkerHolds(front);
      var job :| HeldBy(front, job, false) > 0;
      assert HeldBy(workers, job, false) > 0;
    }
  }

  lemma PendingIsAccepted(side: PoolSide)
    requires PoolInv(side) && side.pool.Pending()
    ensures side.accepted != []
  {
    if side.pool.queue == [] {
      BusyWorkerHolds(side.workers);
      var job :| HeldBy(side.workers, job, false) > 0;
      assert multiset(side.started)[job] > 0;
      assert job in side.started;
    }
  }

  lemma WithWorkMainStep(s: State)
    requires PoolInv(s.side) && HandedOver(s.side, s.tasks, s.ran) && LeftOverWithWork(s) && Enabled(s, MainStep)
    ensures ExitInv(MainNext(s)) || LeftOverWithWork(MainNext(s))
  {
    hide PoolInv, HandedOver;
    if s.main.ReadPool1? && s.tasks == [] && !s.side.pool.Pending() {
      NothingAccepted(s);
    }
  }

  lemma WithWorkWorkerStep(s: State, w: nat)
    requires LeftOverWithWork(s) && Enabled(s, WorkerStep(w))
    ensures LeftOverWithWork(Next(s, WorkerStep(w)))
  {
    WorkerKeepsAccepted(s.side, w);
  }

  lemma LeftOverWithWorkKept(s: State, a: Action)
    requires PoolInv(s.side) && HandedOver(s.side, s.tasks, s.ran) && LeftOverWithWork(s) && Enabled(s, a)
    ensures ExitInv(Next(s, a)) || LeftOverWithWork(Next(s, a))
  {
    hide PoolInv, HandedOver;
    match a
    case MainStep => WithWorkMainStep(s);
    case WorkerStep(w) => WithWorkWorkerStep(s, w);
    case _ =>
  }

  lemma WorkerKeepsAccepted(side: PoolSide, w: nat)
    requires w < |side.workers|
    ensures WorkerNext(side, w).accepted == side.accepted
  {
  }

  lemma LeftOverAloneKept(s: State, a: Action)
    requires PoolInv(s.side) && LeftOverAlone(s) && Enabled(s, a)
    ensures ExitInv(Next(s, a)) || LeftOverAlone(Next(s, a))
  {
    assert BusyWorkers([]) == 0;
    match a
    case MainStep =>
    case _ =>
  }

  /** How the loop is entered. */
  lemma EntryStartsInv(s: State, a: Action)
    requires PoolInv(s.side) && Enabled(s, a) && InMainScript(s.main) && s.ran == []
    ensures var t := Next(s, a);
      && (InMainScript(t.main) ==> t.ran == [])
      && (t.entrySafe ==> ExitInv(t) || LeftOverWithWork(t) || LeftOverAlone(t) || InMainScript(t.main))
  {
    if a.EndScript? && s.side.pool.Pending() {
      PendingIsAccepted(s.side);
    }
  }

  /** What the way the loop was entered guarantees, once it has been. */
  ghost predicate EntryInv(s: State) {
    s.entrySafe ==> ExitInv(s) || LeftOverWithWork(s) || LeftOverAlone(s)
  }

  lemma LoopKeepsEntryInv(s: State, a: Action)
    requires PoolInv(s.side) && HandedOver(s.side, s.tasks, s.ran) && Enabled(s, a)
    requires !InMainScript(s.main) && EntryInv(s)
    ensures !InMainScript(Next(s, a).main) && Next(s, a).entrySafe == s.entrySafe && EntryInv(Next(s, a))
  {
    StaysInLoop(s, a);
    hide LeftOverWithWork, LeftOverAlone, ExitInv, PoolInv, HandedOver, Enabled, Next;
    if ExitInv(s) {
      ExitKept(s, a);
    } else if s.entrySafe && LeftOverWithWork(s) {
      LeftOverWithWorkKept(s, a);
    } else if s.entrySafe {
      LeftOverAloneKept(s, a);
    }
  }

  lemma StaysInLoop(s: State, a: Action)
    requires Enabled(s, a) && !InMainScript(s.main)
    ensures !InMainScript(Next(s, a).main) && Next(s, a).entrySafe == s.entrySafe
  {
  }

  lemma StepKeepsInv(s: State, a: Action)
    requires Inv(s) && Enabled(s, a)
    ensures Inv(Next(s, a))
  {
    hide LeftOverWithWork, LeftOverAlone, ExitInv, PoolInv, HandedOver, WakeInv, Enabled, Next;
    JobsKept(s, a);
    WakeKept(s, a);
    if InMainScript(s.main) {
      EntryStartsInv(s, a);
    } else {
      LoopKeepsEntryInv(s, a);
    }
  }

  lemma {:induction false} RunKeepsInv(s: State, run: seq<Action>, t: State)
    requires Inv(s) && IsRun(s, run, t)
    ensures Inv(t)
    decreases |run|
  {
    if run == [] {
    } else {
      StepKeepsInv(s, run[0]);
      RunKeepsInv(Next(s, run[0]), run[1..], t);
    }
  }

  lemma {:induction false} RunSnoc(s: State, run: seq<Action>, t: State, a: Action)
    requires IsRun(s, run, t) && Enabled(t, a)
    ensures IsRun(s, run + [a], Next(t, a))
    decreases |run|
  {
    if run == [] {
      assert [a][1..] == [];
    } else {
      assert (run + [a])[1..] == run[1..] + [a];
      RunSnoc(Next(s, run[0]), run[1..], t, a);
    }
  }

  lemma ReachableStep(s: State, a: Action)
    requires Reachable(s) && Enabled(s, a)
    ensures Reachable(Next(s, a))
  {
    var init, run :| Initial(init) && IsRun(init, run, s);
    RunSnoc(init, run, s, a);
  }

  lemma ReachableInv(s: State)
    requires Reachable(s)
    ensures Inv(s)
  {
    var init, run :| Initial(init) && IsRun(init, run, s);
    InitialInv(init);
    RunKeepsInv(init, run, s);
  }

  // ---------------------------------------------------------------------------
  // Main results
  // ---------------------------------------------------------------------------

  lemma {:induction false} DistinctMultiplicity(jobs: seq<Job>, job: Job)
    requires Distinct(jobs)
    ensures multiset(jobs)[job] == if job in jobs then 1 else 0
    decreases |jobs|
  {
    if jobs == [] {
    } else {
      var n := |jobs| - 1;
      assert jobs == jobs[..n] + [jobs[n]];
      DistinctMultiplicity(jobs[..n], job);
    }
  }

  /**
   * Termination detection: if the loop was entered in a safe state, it decides to end only when nothing is
   * left to do and the completion of every submitted job has been run exactly once.
   */
  lemma TerminationIsDetected(s: State, job: Job)
    requires Reachable(s) && s.entrySafe && s.main == Exited(true)
    ensures s.tasks == [] && s.timers == 0 && s.side.pool.queue == []
    ensures forall w :: 0 <= w < |s.side.workers| ==> !s.side.workers[w].Busy()
    ensures Completions(s.ran, job) == if job in s.side.accepted then 1 else 0
  {
    ReachableInv(s);
    NobodyBusy(s.side.workers);
    HeldByNobody(s.side.workers, job, true);
    assert multiset(s.side.started)[job] ==
           HeldBy(s.side.workers, job, true) + Completions(s.tasks, job) + Completions(s.ran, job);
    assert s.side.accepted == s.side.started;
    DistinctMultiplicity(s.side.accepted, job);
  }

  // ---------------------------------------------------------------------------
  // Runs with a given course
  // ---------------------------------------------------------------------------

  ghost predicate Leads(s: State, t: State) {
    exists run :: IsRun(s, run, t)
  }

  lemma Stays(s: State)
    ensures Leads(s, s)
  {
    assert IsRun(s, [], s);
  }

  lemma Advance(from: State, s: State, a: Action, t: State)
    requires Leads(from, s) && Enabled(s, a) && t == Next(s, a)
    ensures Leads(from, t)
  {
    var run :| IsRun(from, run, s);
    RunSnoc(from, run, s, a);
  }

  lemma LeadsFromReachable(s: State, t: State)
    requires Reachable(s) && Leads(s, t)
    ensures Reachable(t)
  {
    var init, before :| Initial(init) && IsRun(init, before, s);
    var run :| IsRun(s, run, t);
    RunAppend(init, before, s, run, t);
  }

  lemma {:induction false} RunAppend(s: State, a: seq<Action>, t: State, b: seq<Action>, u: State)
    requires IsRun(s, a, t) && IsRun(t, b, u)
    ensures IsRun(s, a + b, u)
    decreases |a|
  {
    if a == [] {
      assert a + b == b;
    } else {
      assert (a + b)[1..] == a[1..] + b;
      RunAppend(Next(s, a[0]), a[1..], t, b, u);
    }
  }

  /** An idle main thread finds no task, no timer and no task again. */
  lemma ReadsNothing(from: State, s: State)
    requires Leads(from, s) && s.main == TopCheck && s.tasks == [] && s.timers == 0
    ensures Leads(from, s.(main := ReadPool1))
  {
    hide Leads;
    Advance(from, s, MainStep, s.(main := TimerCheck));
    Advance(from, s.(main := TimerCheck), MainStep, s.(main := ReadTimers1));
    Advance(from, s.(main := ReadTimers1), MainStep, s.(main := ReadQueue1));
    Advance(from, s.(main := ReadQueue1), MainStep, s.(main := ReadPool1));
  }

  /** A job that has not been submitted yet. */
  lemma FreshJob(jobs: seq<Job>) returns (job: Job)
    ensures forall j :: j in jobs ==> j < job
    decreases |jobs|
  {
    if jobs == [] {
      job := 0;
    } else {
      var last := jobs[|jobs| - 1];
      job := FreshJob(jobs[..|jobs| - 1]);
      if job <= last {
        job := last + 1;
      }
      assert forall j :: j in jobs ==> j in jobs[..|jobs| - 1] || j == last;
    }
  }

  predicate IdlePool(side: PoolSide) {
    && side.workers != [] && !side.pool.stop && side.pool.queue == [] && side.pool.active == 0
    && forall w :: 0 <= w < |side.workers| ==> side.workers[w] == Awake || side.workers[w] == Asleep
  }

  /** A script submits a job, and worker `x` is awake for it. */
  lemma SubmitsJob(from: State, s: State, script: Script) returns (side: PoolSide, x: nat, job: Job)
    requires Leads(from, s) && s.main == Js(script) && IdlePool(s.side)
    ensures Leads(from, s.(side := side)) && x < |side.workers| && side.workers[x] == Awake
    ensures side.pool == Pool([job], false, 0)
  {
    hide Leads;
    job := FreshJob(s.side.accepted);
    var notifying := s.(main := NotifyPool(script), side := Accept(s.side, job));
    Advance(from, s, Submit(job), notifying);
    if NobodyAsleep(s.side.workers) {
      side, x := Accept(s.side, job), 0;
      Advance(from, notifying, NotifyNobody, s.(side := side));
    } else {
      x :| 0 <= x < |s.side.workers| && s.side.workers[x] == Asleep;
      side := SetWorker(Accept(s.side, job), x, Awake);
      Advance(from, notifying, NotifyOne(x), s.(side := side));
    }
  }

  /** An awake worker takes the only job. */
  lemma TakesJob(from: State, s: State, x: nat, job: Job) returns (side: PoolSide)
    requires Leads(from, s) && x < |s.side.workers| && s.side.workers[x] == Awake
    requires s.side.pool == Pool([job], false, 0)
    ensures Leads(from, s.(side := side)) && x < |side.workers| && side.workers[x] == Running(job)
    ensures side.pool == Pool([], false, 1)
  {
    hide Leads;
    side := WorkerNext(s.side, x);
    Advance(from, s, WorkerStep(x), s.(side := side));
  }

  /** It queues the completion, notifies and comes back. */
  lemma FinishesJob(from: State, s: State, x: nat, job: Job) returns (side: PoolSide)
    requires Leads(from, s) && s.main != Sleeping
    requires x < |s.side.workers| && s.side.workers[x] == Running(job) && s.side.pool == Pool([], false, 1)
    ensures Leads(from, s.(tasks := s.tasks + [Completion(job)], side := side))
    ensures side.pool == Pool([], false, 0)
  {
    hide Leads;
    var pushed := s.(tasks := s.tasks + [Completion(job)], side := SetWorker(s.side, x, Pushed(job)));
    Advance(from, s, WorkerStep(x), pushed);
    var back := pushed.(side := SetWorker(s.side, x, Finishing(job)));
    Advance(from, pushed, WorkerStep(x), back);
    side := WorkerNext(back.side, x);
    Advance(from, back, WorkerStep(x), back.(side := side));
  }

  /** A machine with one worker at the start of the main script. */
  function OneWorker(): State {
    State(Js(InMain), 0, 0, false, true, [], [], PoolSide(Pool([], false, 0), [Awake], [], [], []))
  }

  lemma OneWorkerIsReachable()
    ensures Reachable(OneWorker())
  {
    assert IsRun(OneWorker(), [], OneWorker());
  }

  /**
   * The first three reads alone do not suffice: a job can finish after its completion was looked for and
   * before the pool is, so that all three find nothing although a completion is queued.
   */
  lemma FirstReadsAreNotEnough()
    ensures exists s :: Reachable(s) && s.entrySafe && s.main == AtCheckpoint(BeforeExit) && s.microtasks == 0 &&
                   s.tasks != []
  {
    var from := OneWorker();
    Stays(from);
    var side, x, job := SubmitsJob(from, from, InMain);
    var submitted := from.(side := side);
    side := TakesJob(from, submitted, x, job);
    var busy := from.(side := side);
    hide Leads;
    Advance(from, busy, EndScript, busy.(main := TopCheck));
    ReadsNothing(from, busy.(main := TopCheck));
    side := FinishesJob(from, busy.(main := ReadPool1), x, job);
    var done := busy.(main := ReadPool1, tasks := [] + [Completion(job)], side := side);
    Advance(from, done, MainStep, done.(main := AtCheckpoint(BeforeExit)));
    OneWorkerIsReachable();
    LeadsFromReachable(from, done.(main := AtCheckpoint(BeforeExit)));
  }

  /** The microtasks of the last checkpoint do nothing. */
  lemma {:induction false} RunsMicrotasks(from: State, s: State)
    requires Leads(from, s) && s.main == AtCheckpoint(BeforeExit)
    ensures Leads(from, s.(microtasks := 0))
    decreases s.microtasks
  {
    hide Leads;
    if s.microtasks == 0 {
      assert s.(microtasks := 0) == s;
    } else {
      var inside := s.(main := Js(InMicrotask(BeforeExit)), microtasks := s.microtasks - 1);
      Advance(from, s, MainStep, inside);
      Advance(from, inside, EndScript, s.(microtasks := s.microtasks - 1));
      RunsMicrotasks(from, s.(microtasks := s.microtasks - 1));
    }
  }

  /** The second reads have found no timer and no task. */
  lemma ReadsNoTask(from: State, s: State)
    requires Leads(from, s) && s.main == AtCheckpoint(BeforeExit) && s.microtasks == 0
    requires s.tasks == [] && s.timers == 0
    ensures Leads(from, s.(main := ReadPool2(false, false)))
  {
    hide Leads;
    Advance(from, s, MainStep, s.(main := ReadTimers2));
    Advance(from, s.(main := ReadTimers2), MainStep, s.(main := ReadQueue2(false)));
    Advance(from, s.(main := ReadQueue2(false)), MainStep, s.(main := ReadPool2(false, false)));
  }

  lemma FindsPoolIdle(from: State, s: State)
    requires Leads(from, s) && s.main == ReadPool2(false, false) && s.side.pool == Pool([], false, 0)
    ensures Leads(from, s.(main := Exited(true)))
  {
    hide Leads;
    Advance(from, s, MainStep, s.(main := Decide(false)));
    Advance(from, s.(main := Decide(false)), MainStep, s.(main := Exited(true)));
  }

  /** The second reads find nothing if the job finishes between the last two of them. */
  lemma SecondReadsMissTheJob(from: State, s: State, x: nat, job: Job) returns (t: State)
    requires Leads(from, s) && s.main == AtCheckpoint(BeforeExit) && s.microtasks == 0
    requires s.tasks == [] && s.timers == 0 && s.side.pool == Pool([job], false, 0)
    requires x < |s.side.workers| && s.side.workers[x] == Awake
    ensures Leads(from, t) && t.main == Exited(true) && t.tasks != [] && t.entrySafe == s.entrySafe
  {
    hide Leads;
    ReadsNoTask(from, s);
    var reading := s.(main := ReadPool2(false, false));
    var side := TakesJob(from, reading, x, job);
    side := FinishesJob(from, reading.(side := side), x, job);
    var done := reading.(tasks := reading.tasks + [Completion(job)], side := side);
    FindsPoolIdle(from, done);
    t := done.(main := Exited(true));
  }

  /** From an entry that is not safe, a left-over microtask can submit a job whose completion is lost. */
  lemma UnsafeEntryLosesACompletion(s: State) returns (t: State)
    requires s.main == TopCheck && !SafeEntry(s) && IdlePool(s.side)
    ensures Leads(s, t) && t.main == Exited(true) && t.tasks != [] && t.entrySafe == s.entrySafe
  {
    Stays(s);
    hide Leads;
    ReadsNothing(s, s);
    Advance(s, s.(main := ReadPool1), MainStep, s.(main := AtCheckpoint(BeforeExit)));
    var inside := s.(main := Js(InMicrotask(BeforeExit)), microtasks := s.microtasks - 1);
    Advance(s, s.(main := AtCheckpoint(BeforeExit)), MainStep, inside);
    var side, x, job := SubmitsJob(s, inside, InMicrotask(BeforeExit));
    var submitted := inside.(side := side);
    Advance(s, submitted, EndScript, submitted.(main := AtCheckpoint(BeforeExit)));
    RunsMicrotasks(s, submitted.(main := AtCheckpoint(BeforeExit)));
    t := SecondReadsMissTheJob(s, submitted.(main := AtCheckpoint(BeforeExit), microtasks := 0), x, job);
  }

  lemma EntryPoolIsIdle(s: State)
    requires Reachable(s) && s.main == TopCheck && !SafeEntry(s)
    ensures IdlePool(s.side)
  {
    ReachableInv(s);
    NobodyBusy(s.side.workers);
  }

  /** Nothing is left to do, and every accepted job's completion has been run. */
  ghost predicate NothingIsLeft(s: State) {
    && s.tasks == [] && s.timers == 0 && !s.side.pool.Pending()
    && forall job :: Completions(s.ran, job) == if job in s.side.accepted then 1 else 0
  }

  /**
   * The exact condition: the main script ends in a safe state if and only if in every run from there the loop
   * decides to end only when nothing is left.
   */
  lemma EntryDecides(s: State)
    requires Reachable(s) && s.main == Js(InMain)
    ensures SafeEntry(s) <==>
            forall t :: Leads(Next(s, EndScript), t) && t.main == Exited(true) ==> NothingIsLeft(t)
  {
    var entered := Next(s, EndScript);
    ReachableStep(s, EndScript);
    if SafeEntry(s) {
      forall t | Leads(entered, t) && t.main == Exited(true) ensures NothingIsLeft(t) {
        SafeEntryIsKept(entered, t);
        LeadsFromReachable(entered, t);
        forall job ensures Completions(t.ran, job) == if job in t.side.accepted then 1 else 0 {
          TerminationIsDetected(t, job);
        }
        IdleAtExit(t);
      }
    } else {
      EntryPoolIsIdle(entered);
      var t := UnsafeEntryLosesACompletion(entered);
      assert !NothingIsLeft(t);
    }
  }

  lemma IdleAtExit(t: State)
    requires Reachable(t) && t.entrySafe && t.main == Exited(true)
    ensures t.tasks == [] && t.timers == 0 && !t.side.pool.Pending()
  {
    ReachableInv(t);
  }

  lemma SafeEntryIsKept(s: State, t: State)
    requires Leads(s, t) && !InMainScript(s.main)
    ensures t.entrySafe == s.entrySafe
  {
    var run :| IsRun(s, run, t);
    EntryIsHistory(s, run, t);
  }

  lemma {:induction false} EntryIsHistory(s: State, run: seq<Action>, t: State)
    requires IsRun(s, run, t) && !InMainScript(s.main)
    ensures t.entrySafe == s.entrySafe
    decreases |run|
  {
    if run == [] {
    } else {
      StaysInLoop(s, run[0]);
      hide Next, Enabled;
      EntryIsHistory(Next(s, run[0]), run[1..], t);
    }
  }

  /** One left-over microtask, an idle worker and nothing else are enough to lose a completion. */
  lemma LeftOverMicrotaskLosesACompletion()
    ensures exists s :: Reachable(s) && !s.entrySafe && s.main == Exited(true) && s.tasks != []
  {
    var start := OneWorker();
    OneWorkerIsReachable();
    ReachableStep(start, AddMicrotask);
    var s := start.(microtasks := 1);
    ReachableStep(s, EndScript);
    var entered := Next(s, EndScript);
    var t := UnsafeEntryLosesACompletion(entered);
    LeadsFromReachable(entered, t);
  }

  // ---------------------------------------------------------------------------
  // The loop ends
  // ---------------------------------------------------------------------------

  /** Nothing is left to do, no script runs and no exception is about to end the loop. */
  predicate Quiet(s: State) {
    && s.tasks == [] && s.timers == 0 && s.microtasks == 0 && !s.side.pool.Pending()
    && (Drained(s.main) || (s.main.AtCheckpoint? && (s.main.at.BeforeExit? || !s.caught)))
  }

  /** The main thread's own next step; its wait times out. */
  function OwnStep(s: State): Action {
    if s.main.Sleeping? then WakeMain else MainStep
  }

  /** How many steps of its own the main thread of a quiet machine is away from the exit. */
  function StepsToExit(main: Main): nat {
    match main
    case ReadPool2(timers, tasks) => if timers || tasks then 15 else 2
    case ReadQueue2(timers) => if timers then 16 else 3
    case Decide(hasWork) => if hasWork then 14 else 1
    case WaitCheck => 13
    case WaitEnter => 12
    case Sleeping => 11
    case Dequeuing => 11
    case TopCheck => 10
    case TimerCheck => 9
    case ReadTimers1 => 8
    case ReadQueue1 => 7
    case ReadPool1 => 6
    case ReadTimers2 => 4
    case AtCheckpoint(at) => (match at case AfterTask => 11 case AfterTick => 9 case BeforeExit => 5)
    case _ => 0
  }

  lemma OwnStepNearsExit(s: State)
    requires Quiet(s)
    ensures Enabled(s, OwnStep(s))
    ensures var t := Next(s, OwnStep(s));
      && t == s.(main := t.main)
      && (t.main == Exited(true) || (Quiet(t) && StepsToExit(t.main) < StepsToExit(s.main)))
  {
  }

  /**
   * The converse of termination detection: once nothing is left to do and no script runs, the steps of the main
   * thread alone lead to the decision to end, and change nothing else.
   */
  lemma {:induction false} QuietLoopEnds(s: State) returns (run: seq<Action>)
    requires Quiet(s)
    ensures forall i :: 0 <= i < |run| ==> run[i] == MainStep || run[i] == WakeMain
    ensures IsRun(s, run, s.(main := Exited(true)))
    decreases StepsToExit(s.main)
  {
    OwnStepNearsExit(s);
    var t := Next(s, OwnStep(s));
    var rest;
    if t.main == Exited(true) {
      rest := [];
    } else {
      rest := QuietLoopEnds(t);
    }
    run := [OwnStep(s)] + rest;
    assert run[1..] == rest;
  }

  /**
   * Conservation: every accepted job is queued, held by one worker, or finished, and only one of these; the
   * active count is the number of workers between pop and decrement; jobs start in the order of submission.
   */
  lemma PoolConserves(s: State, job: Job)
    requires Reachable(s)
    ensures multiset(s.side.pool.queue)[job] + HeldBy(s.side.workers, job, false) + multiset(s.side.finished)[job]
         == if job in s.side.accepted then 1 else 0
    ensures s.side.pool.active == BusyWorkers(s.side.workers)
    ensures s.side.accepted == s.side.started + s.side.pool.queue
  {
    ReachableInv(s);
    assert multiset(s.side.started)[job] ==
           HeldBy(s.side.workers, job, false) + multiset(s.side.finished)[job];
    DistinctMultiplicity(s.side.accepted, job);
  }

  /** After stop and join every accepted job has been run exactly once, even if the loop left with an error. */
  lemma JoinDrainsThePool(s: State, job: Job)
    requires Reachable(s) && s.main.Joined? && s.side.workers != []
    ensures multiset(s.side.finished)[job] == if job in s.side.accepted then 1 else 0
    ensures s.side.started == s.side.accepted
  {
    ReachableInv(s);
    assert s.side.workers[0] == Gone;
    HeldByNobody(s.side.workers, job, false);
    PoolConserves(s, job);
  }

  /**
   * No lost wake-up: while jobs are queued a worker is awake or a notification is on its way, and the main
   * thread sleeps over a queued task only while the worker that queued it is about to notify.
   */
  lemma NoLostWakeUp(s: State)
    requires Reachable(s)
    ensures s.side.pool.queue != [] && s.side.workers != [] ==> s.main.NotifyPool? || SomeoneAwake(s.side.workers)
    ensures s.main == Sleeping && s.tasks != [] ==>
              exists w: nat :: Enabled(s, WorkerStep(w)) && s.side.workers[w].Pushed? &&
                          Next(s, WorkerStep(w)).main == TopCheck
  {
    ReachableInv(s);
    if s.main == Sleeping && s.tasks != [] {
      var w :| 0 <= w < |s.side.workers| && s.side.workers[w].Pushed?;
      assert Enabled(s, WorkerStep(w)) && Next(s, WorkerStep(w)).main == TopCheck;
    }
  }

  // ---------------------------------------------------------------------------
  // The destructor returns
  // ---------------------------------------------------------------------------

  function StepsLeft(w: Worker): nat {
    match w
    case Running(_) => 4
    case Pushed(_) => 3
    case Finishing(_) => 2
    case Awake => 1
    case Asleep => 1
    case Gone => 0
  }

  function TotalStepsLeft(workers: seq<Worker>): nat
    decreases |workers|
  {
    if workers == [] then 0 else TotalStepsLeft(workers[..|workers| - 1]) + StepsLeft(workers[|workers| - 1])
  }

  lemma {:induction false} TotalStepsLeftUpdate(workers: seq<Worker>, i: nat, w: Worker)
    requires i < |workers|
    ensures TotalStepsLeft(workers[i := w]) + StepsLeft(workers[i]) == TotalStepsLeft(workers) + StepsLeft(w)
    decreases |workers|
  {
    var n := |workers| - 1;
    if i < n {
      assert workers[i := w][..n] == workers[..n][i := w];
      TotalStepsLeftUpdate(workers[..n], i, w);
    } else {
      assert workers[i := w][..n] == workers[..n];
    }
  }

  function JoinMeasure(side: PoolSide): nat {
    4 * |side.pool.queue| + TotalStepsLeft(side.workers)
  }

  /** Each step of a worker brings the end of the join nearer. */
  lemma JoinStepDecreases(s: State, a: Action)
    requires Reachable(s) && s.main.Joining? && Enabled(s, a) && a != MainStep
    ensures a.WorkerStep? && JoinMeasure(Next(s, a).side) < JoinMeasure(s.side)
  {
    ReachableInv(s);
    var workers := s.side.workers;
    assert forall w :: 0 <= w < |workers| ==> workers[w] != Asleep;
    TotalStepsLeftUpdate(workers, a.w, Next(s, a).side.workers[a.w]);
  }

  /** While the destructor joins, either all workers are gone or one of them can move. */
  lemma JoinNeverBlocks(s: State)
    requires Reachable(s) && s.main.Joining?
    ensures Enabled(s, MainStep) || exists w: nat :: Enabled(s, WorkerStep(w))
  {
    ReachableInv(s);
    if !Enabled(s, MainStep) {
      var w :| 0 <= w < |s.side.workers| && s.side.workers[w] != Gone;
      assert Enabled(s, WorkerStep(w));
    }
  }
}
