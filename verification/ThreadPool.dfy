/**
  The thread pool object: src/base/ThreadPool.cc. Each method is what one thread does from getting
  `mutex_` to giving it up; threads that go to sleep come back through the `Again` methods. Every
  method is one step of `PoolProtocol`, whose theorems are about all interleavings of them.
 */
module ThreadPool {
  import opened ConditionVariable
  import P = PoolProtocol

  type Tid = P.Tid

  class ThreadPool<T> {
    const maxQueueSize: nat
    const workers: set<Tid>
    var notEmpty: Condition<Tid>
    var notFull: Condition<Tid>
    var queue: seq<T>
    var running: bool

    ghost var place: map<Tid, P.Place<T>>
    ghost var enqueued: seq<T>
    ghost var taken: seq<T>
    ghost var refused: seq<T>
    ghost var direct: seq<T>
    ghost var settled: seq<(Tid, T)>

    ghost function StateOf(): P.Pool<T>
      reads this
    {
      P.Pool(maxQueueSize, workers, place, notEmpty, notFull, queue, running, enqueued, taken, refused, direct, settled)
    }

    /** `start`, with `clients` the other threads that will use the pool. */
    constructor (maxQueueSize: nat, workers: set<Tid>, clients: set<Tid>)
      ensures StateOf() == P.Init(maxQueueSize, workers, clients)
    {
      this.maxQueueSize, this.workers := maxQueueSize, workers;
      notEmpty, notFull := New(), New();
      queue, running := [], true;
      place := map t | t in workers + clients :: if t in workers then P.AtTest else P.User;
      enqueued, taken, refused, direct, settled := [], [], [], [], [];
    }

    /** The test of the protocol, on the fields. */
    predicate IsFull()
      reads this
      ensures IsFull() <==> P.IsFull(StateOf())
    {
      maxQueueSize > 0 && |queue| >= maxQueueSize
    }

    /** One pass of the wait loop of `run` and what follows it. */
    method RunLocked(t: Tid, task: T, pick: Tid) returns (asleep: bool)
      requires CanPick(notEmpty, pick)
      modifies this
      ensures StateOf() == P.RunLocked(old(StateOf()), t, task, pick)
      ensures asleep <==> old(IsFull() && running)
    {
      if IsFull() && running {
        notFull := Wait(notFull, t);
        place := place[t := P.InRun(task)];
        return true;
      }
      place := place[t := P.User];
      settled := settled + [(t, task)];
      if !running {
        refused := refused + [task];
        return false;
      }
      queue := queue + [task];
      enqueued := enqueued + [task];
      notEmpty := Notify(notEmpty, pick);
      return false;
    }

    method Run(t: Tid, task: T, pick: Tid) returns (asleep: bool)
      requires P.Enabled(StateOf(), P.Step.Run(t, task, pick))
      modifies this
      ensures StateOf() == P.Next(old(StateOf()), P.Step.Run(t, task, pick))
      ensures asleep ==> workers != {} && old(IsFull())
    {
      if workers == {} {
        direct := direct + [task];
        settled := settled + [(t, task)];
        return false;
      }
      asleep := RunLocked(t, task, pick);
    }

    /** `run`, from the return of `notFull_.wait()` on. */
    method RunAgain(t: Tid, task: T, pick: Tid) returns (asleep: bool)
      requires P.Enabled(StateOf(), P.RunAgain(t, pick)) && task == place[t].task
      modifies this
      ensures StateOf() == P.Next(old(StateOf()), P.RunAgain(t, pick))
      ensures asleep ==> old(IsFull())
    {
      notFull := Return(notFull, t);
      asleep := RunLocked(t, task, pick);
    }

    /** One pass of the wait loop of `take` and what follows it. */
    method TakeLocked(t: Tid, pick: Tid) returns (result: P.TakeResult<T>)
      requires CanPick(notFull, pick)
      modifies this
      ensures StateOf() == P.TakeLocked(old(StateOf()), t, pick)
      ensures result == P.TakeOutcome(old(StateOf()))
    {
      if queue == [] && running {
        notEmpty := Wait(notEmpty, t);
        place := place[t := P.InTake];
        return P.Asleep;
      }
      if queue != [] {
        result := P.Got(queue[0]);
        taken := taken + [queue[0]];
        place := place[t := P.User];
        queue := queue[1..];
        if maxQueueSize > 0 {
          notFull := Notify(notFull, pick);
        }
      } else {
        place := place[t := P.AtTest];
        result := P.NoTask;
      }
    }

    method Take(t: Tid, pick: Tid) returns (result: P.TakeResult<T>)
      requires P.Enabled(StateOf(), P.Take(t, pick))
      modifies this
      ensures StateOf() == P.Next(old(StateOf()), P.Take(t, pick))
      ensures result == P.TakeOutcome(old(StateOf()))
    {
      result := TakeLocked(t, pick);
    }

    /** `take`, from the return of `notEmpty_.wait()` on. */
    method TakeAgain(t: Tid, pick: Tid) returns (result: P.TakeResult<T>)
      requires P.Enabled(StateOf(), P.TakeAgain(t, pick))
      modifies this
      ensures StateOf() == P.Next(old(StateOf()), P.TakeAgain(t, pick))
      ensures result == P.TakeOutcome(old(StateOf()))
    {
      notEmpty := Return(notEmpty, t);
      result := TakeLocked(t, pick);
    }

    /** The test at the head of the loop of `runInThread`. */
    method Test(t: Tid) returns (again: bool)
      requires P.Enabled(StateOf(), P.Test(t))
      modifies this
      ensures StateOf() == P.Next(old(StateOf()), P.Test(t))
      ensures again == running
    {
      again := running;
      place := place[t := if running then P.Taking else P.Done];
    }

    /** `stop`, up to the joins. */
    method Stop()
      modifies this
      ensures StateOf() == P.Next(old(StateOf()), P.Stop)
    {
      running := false;
      notEmpty := NotifyAll(notEmpty);
      notFull := NotifyAll(notFull);
    }
  }
}
