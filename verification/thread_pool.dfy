/**
 * The fixed-size thread pool of the extension, as a sequential state
 * machine: a FIFO queue of tasks and a `stop` flag, guarded in the original
 * by one mutex. `Enqueue` and `WorkerStep` each stand for one critical
 * section. `Shutdown` stands for the whole destructor: the critical section
 * that sets `stop`, then the join, modelled as the worker steps that drain
 * the queue. The constructor takes no lock. A worker thread is modelled by
 * the steps it takes (`WorkerStep`), not as a thread, and only a pool with at
 * least one worker can take one.
 */
module Pool {
  import opened Wrappers
  import opened Checksum

  /** The message of the `std::runtime_error` thrown by `enqueue` after shutdown. */
  const EnqueueOnStopped: string := "enqueue on stopped ThreadPool"

  /** What one pass of a worker's `for (;;)` loop does while it holds the lock. */
  datatype WorkerStep<T> =
    | Wait                         // running with an empty queue: block on the condition variable
    | Exit                         // stopped with an empty queue: return from the thread function
    | Run(ticket: nat, task: T)    // take the front task (the `ticket`-th ever submitted) and pop it

  class ThreadPool<T> {
    /** `workers.size()`: the number of worker threads launched. */
    var workers: nat
    /** The task queue, front first. */
    var tasks: seq<T>
    var stop: bool

    /**
     * How many tasks have been accepted and how many taken. They stand for
     * the identity of each task's future, which the original gets from its
     * `std::packaged_task`.
     */
    var enqueued: nat
    var dequeued: nat

    /** Every task accepted by `Enqueue`, in order; its index is the task's future. */
    ghost var submitted: seq<T>
    /** Every task a worker has taken from the queue, in order. */
    ghost var taken: seq<T>

    /** The queue is what was submitted and not yet taken: removal is FIFO and happens once per task. */
    ghost predicate Valid()
      reads this
    {
      && submitted == taken + tasks
      && enqueued == |submitted|
      && dequeued == |taken|
    }

    /** The condition a worker waits on. */
    predicate Idle()
      reads this
    {
      !stop && tasks == []
    }

    /** The condition on which a worker returns. */
    predicate Finished()
      reads this
    {
      stop && tasks == []
    }

    /** The constructor: not stopped, an empty queue, `threads` workers. */
    constructor (threads: nat)
      ensures Valid()
      ensures workers == threads && tasks == [] && !stop
      ensures submitted == [] && taken == []
    {
      workers := threads;
      tasks := [];
      stop := false;
      enqueued, dequeued := 0, 0;
      submitted := [];
      taken := [];
    }

    /**
     * `enqueue`: throws once the pool is stopped, leaving the queue alone;
     * otherwise pushes the task at the back and returns its future, here the
     * number of tasks submitted before it.
     */
    method Enqueue(task: T) returns (future: Result<nat>)
      requires Valid()
      modifies this
      ensures Valid()
      ensures workers == old(workers) && stop == old(stop) && taken == old(taken)
      ensures old(stop) ==> future == Err(RuntimeError(EnqueueOnStopped))
                            && tasks == old(tasks) && submitted == old(submitted)
      ensures !old(stop) ==> future == Ok(|old(submitted)|)
                             && tasks == old(tasks) + [task] && submitted == old(submitted) + [task]
    {
      if stop {
        return Err(RuntimeError(EnqueueOnStopped));
      }
      future := Ok(enqueued);
      tasks := tasks + [task];
      enqueued := enqueued + 1;
      submitted := submitted + [task];
    }

    /**
     * One pass of a worker's loop under the lock: wait while the pool is
     * idle, return when it is finished, otherwise take the front task and pop
     * it (the task itself then runs outside the lock).
     */
    method WorkerStep() returns (step: WorkerStep<T>)
      requires Valid() && workers > 0
      modifies this
      ensures Valid()
      ensures workers == old(workers) && stop == old(stop) && submitted == old(submitted)
      ensures old(Idle()) ==> step == Wait && tasks == old(tasks) && taken == old(taken)
      ensures old(Finished()) ==> step == Exit && tasks == old(tasks) && taken == old(taken)
      ensures old(tasks) != [] ==>
                && step == Run(|old(taken)|, old(tasks)[0])
                && old(submitted)[|old(taken)|] == old(tasks)[0]
                && tasks == old(tasks)[1..]
                && taken == old(taken) + [old(tasks)[0]]
    {
      if !stop && tasks == [] {
        return Wait;
      }
      if stop && tasks == [] {
        return Exit;
      }
      step := Run(dequeued, tasks[0]);
      dequeued := dequeued + 1;
      taken := taken + [tasks[0]];
      tasks := tasks[1..];
    }

    /**
     * `~ThreadPool`: sets `stop` and joins every worker. A worker returns
     * only once the queue is empty, so with at least one worker every task
     * still queued is run first, in FIFO order; with no worker nothing runs.
     * Returns the tasks run during the join.
     */
    method Shutdown() returns (ran: seq<T>)
      requires Valid()
      modifies this
      ensures Valid() && stop
      ensures workers == old(workers) && submitted == old(submitted)
      ensures workers > 0 ==> ran == old(tasks) && Finished() && taken == old(taken) + old(tasks)
      ensures workers == 0 ==> ran == [] && tasks == old(tasks) && taken == old(taken)
    {
      stop := true;
      ran := [];
      if workers > 0 {
        while tasks != []
          invariant Valid() && stop
          invariant workers == old(workers) && submitted == old(submitted)
          invariant ran + tasks == old(tasks)
          invariant taken == old(taken) + ran
          decreases |tasks|
        {
          var step := WorkerStep();
          ran := ran + [step.task];
        }
      }
    }
  }

  /**
   * A pool's life: a task submitted before shutdown is run by the join, and
   * `stop` is never cleared, so a submission after it is rejected.
   */
  method ShutdownScenario<T>(a: T, b: T) returns (first: Result<nat>, ran: seq<T>, later: Result<nat>)
    ensures first == Ok(0)
    ensures ran == [a]
    ensures later == Err(RuntimeError(EnqueueOnStopped))
  {
    var pool := new ThreadPool<T>(4);
    first := pool.Enqueue(a);
    ran := pool.Shutdown();
    later := pool.Enqueue(b);
  }

  /**
   * Workers take tasks in submission order, each once, and wait when the
   * queue is empty and the pool running.
   */
  method FifoScenario<T>(a: T, b: T) returns (s1: WorkerStep<T>, s2: WorkerStep<T>, s3: WorkerStep<T>)
    ensures s1 == Run(0, a) && s2 == Run(1, b) && s3 == Wait
  {
    var pool := new ThreadPool<T>(2);
    var fa := pool.Enqueue(a);
    var fb := pool.Enqueue(b);
    s1 := pool.WorkerStep();
    s2 := pool.WorkerStep();
    s3 := pool.WorkerStep();
  }

  /**
   * `CheckSum::task`: opens the file named by the pair (throwing when it
   * does not open), reads every byte into a sum, and returns its argument
   * unchanged: the sum is discarded.
   */
  method CheckSumTask(fs: FileSystem, fpair: Pair) returns (r: Result<Pair>)
    ensures fpair.1 in fs ==> r == Ok(fpair)
    ensures fpair.1 !in fs ==> r == Err(RuntimeError(FileNotOpened))
  {
    if fpair.1 !in fs {
      return Err(RuntimeError(FileNotOpened));
    }
    var sum := ReadSum(fs[fpair.1]);
    r := Ok(fpair);
  }
}
