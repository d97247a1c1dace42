/** The two shared objects of the runtime, one method for each of their critical sections. */
module Pools {
  import opened Options

  // ---------------------------------------------------------------------------
  // ThreadPool
  // ---------------------------------------------------------------------------

  /** What the pool's mutex guards. */
  datatype Pool<Job> = Pool(queue: seq<Job>, stop: bool, active: int) {

    /** `hasPendingTasks` */
    predicate Pending() {
      queue != [] || active > 0
    }

    function Enqueued(job: Job): Pool<Job> {
      this.(queue := queue + [job])
    }

    /** A worker takes the oldest job. */
    function Taken(): Pool<Job>
      requires queue != []
    {
      this.(queue := queue[1..], active := active + 1)
    }

    function Released(): Pool<Job> {
      this.(active := active - 1)
    }
  }

  /** What a worker does after it has tested the wait predicate. */
  datatype Claim<Job> = Sleep | Leave | Take(job: Job)

  function ClaimOf<Job>(p: Pool<Job>): Claim<Job> {
    if p.queue != [] then Take(p.queue[0]) else if p.stop then Leave else Sleep
  }

  class ThreadPool<Job> {
    var tasks: seq<Job>
    var stop: bool
    var activeTasks: int

    ghost function View(): Pool<Job>
      reads this
    {
      Pool(tasks, stop, activeTasks)
    }

    constructor ()
      ensures View() == Pool([], false, 0)
    {
      tasks, stop, activeTasks := [], false, 0;
    }

    /** The locked part of `enqueue`; a stopped pool throws. */
    method Enqueue(job: Job) returns (accepted: bool)
      modifies this
      ensures accepted == !old(stop)
      ensures View() == if accepted then old(View()).Enqueued(job) else old(View())
    {
      if stop {
        return false;
      }
      tasks := tasks + [job];
      return true;
    }

    method HasPendingTasks() returns (pending: bool)
      ensures pending == View().Pending()
    {
      pending := tasks != [] || activeTasks > 0;
    }

    /** The locked part of a worker's round: test the predicate, then sleep, leave or pop. */
    method WorkerRound() returns (claim: Claim<Job>)
      modifies this
      ensures claim == ClaimOf(old(View()))
      ensures View() == if claim.Take? then old(View()).Taken() else old(View())
    {
      if !(stop || tasks != []) {
        return Sleep;
      }
      if stop && tasks == [] {
        return Leave;
      }
      claim := Take(tasks[0]);
      tasks := tasks[1..];
      activeTasks := activeTasks + 1;
    }

    method Release()
      modifies this
      ensures View() == old(View()).Released()
    {
      activeTasks := activeTasks - 1;
    }

    /** The locked part of the destructor. */
    method Stop()
      modifies this
      ensures View() == old(View()).(stop := true)
    {
      stop := true;
    }
  }

  // ---------------------------------------------------------------------------
  // TaskQueue
  // ---------------------------------------------------------------------------

  class TaskQueue<Task> {
    var queue: seq<Task>

    constructor ()
      ensures queue == []
    {
      queue := [];
    }

    method Enqueue(task: Task)
      modifies this
      ensures queue == old(queue) + [task]
    {
      queue := queue + [task];
    }

    method Dequeue() returns (task: Option<Task>)
      modifies this
      ensures old(queue) == [] ==> task == None && queue == []
      ensures old(queue) != [] ==> task == Some(old(queue)[0]) && queue == old(queue)[1..]
    {
      if queue == [] {
        return None;
      }
      task := Some(queue[0]);
      queue := queue[1..];
    }

    method IsEmpty() returns (empty: bool)
      ensures empty <==> queue == []
    {
      empty := queue == [];
    }

    /** The locked part of `wait`: whether the caller goes to sleep on the condition variable. */
    method MustSleep() returns (sleep: bool)
      ensures sleep <==> queue == []
    {
      if queue != [] {
        return false;
      }
      return true;
    }
  }
}
