/**
  The thread pool as a monitor: src/base/ThreadPool.cc, as a state machine over what its threads do
  under `mutex_`.

  A step is one critical section, from getting the mutex (at the head of `run` or `take`, or on
  the way out of a wait) to giving it up (by returning, or by going to sleep), or one unlocked test
  of `running_`. Steps of all threads interleave in any order, a `notify` may pick any sleeper, and
  sleepers may wake up for no reason.
 */
module PoolProtocol {
  import opened ConditionVariable

  type Tid = nat

  /** What a thread is doing. Only workers test, take and sleep in `take`. */
  datatype Place<T> =
    | User                // in a task, or in code outside the pool
    | AtTest              // at the head of the loop of runInThread
    | Taking              // about to lock in take
    | InTake              // asleep in take, or woken there
    | InRun(task: T)      // asleep in run, or woken there
    | Done

  /**
    `max`, `queue`, `running` and the two conditions are the fields of the pool. The rest records
    what happened: the tasks that entered and left the queue, those that `run` dropped or called
    itself, and the calls of `run` that returned, in order.
   */
  datatype Pool<T> = Pool(max: nat, workers: set<Tid>, place: map<Tid, Place<T>>,
                          notEmpty: Condition<Tid>, notFull: Condition<Tid>,
                          queue: seq<T>, running: bool,
                          enqueued: seq<T>, taken: seq<T>, refused: seq<T>, direct: seq<T>,
                          settled: seq<(Tid, T)>)

  datatype Step<T> =
    | Run(t: Tid, task: T, pick: Tid)
    | RunAgain(t: Tid, pick: Tid)
    | Test(t: Tid)
    | Take(t: Tid, pick: Tid)
    | TakeAgain(t: Tid, pick: Tid)
    | Finish(t: Tid)
    | Spurious(t: Tid)
    | Stop

  /** The pool after `start`: `workers` at their loop, `clients` about to use it. */
  function Init<T>(max: nat, workers: set<Tid>, clients: set<Tid>): Pool<T>
  {
    Pool(max, workers, map t | t in workers + clients :: if t in workers then AtTest else User,
         New(), New(), [], true, [], [], [], [], [])
  }

  predicate IsFull<T>(s: Pool<T>)
  {
    s.max > 0 && |s.queue| >= s.max
  }

  /** `run` under the mutex, the thread not waiting (any more). */
  function RunLocked<T>(s: Pool<T>, t: Tid, task: T, pick: Tid): Pool<T>
    requires CanPick(s.notEmpty, pick)
  {
    if IsFull(s) && s.running then
      s.(notFull := Wait(s.notFull, t), place := s.place[t := InRun(task)])
    else if !s.running then
      s.(place := s.place[t := User], refused := s.refused + [task], settled := s.settled + [(t, task)])
    else
      s.(queue := s.queue + [task], notEmpty := Notify(s.notEmpty, pick), place := s.place[t := User],
         enqueued := s.enqueued + [task], settled := s.settled + [(t, task)])
  }

  /** `take` under the mutex, the thread not waiting (any more). */
  function TakeLocked<T>(s: Pool<T>, t: Tid, pick: Tid): Pool<T>
    requires CanPick(s.notFull, pick)
  {
    if s.queue == [] && s.running then
      s.(notEmpty := Wait(s.notEmpty, t), place := s.place[t := InTake])
    else if s.queue == [] then
      s.(place := s.place[t := AtTest])
    else
      s.(queue := s.queue[1..], taken := s.taken + [s.queue[0]], place := s.place[t := User],
         notFull := if s.max > 0 then Notify(s.notFull, pick) else s.notFull)
  }

  predicate Enabled<T>(s: Pool<T>, step: Step<T>)
  {
    match step
    case Run(t, _, pick) => t in s.place && s.place[t].User? && CanPick(s.notEmpty, pick)
    case RunAgain(t, pick) => t in s.notFull.woken && t in s.place && s.place[t].InRun? && CanPick(s.notEmpty, pick)
    case Test(t) => t in s.place && s.place[t].AtTest?
    case Take(t, pick) => t in s.place && s.place[t].Taking? && CanPick(s.notFull, pick)
    case TakeAgain(t, pick) => t in s.notEmpty.woken && t in s.place && CanPick(s.notFull, pick)
    case Finish(t) => t in s.place && s.place[t].User?
    case Spurious(t) => t in s.notEmpty.parked || t in s.notFull.parked
    case Stop => true
  }

  function Next<T>(s: Pool<T>, step: Step<T>): Pool<T>
    requires Enabled(s, step)
  {
    match step
    case Run(t, task, pick) =>
      if s.workers == {} then s.(direct := s.direct + [task], settled := s.settled + [(t, task)])
      else RunLocked(s, t, task, pick)
    case RunAgain(t, pick) => RunLocked(s.(notFull := Return(s.notFull, t)), t, s.place[t].task, pick)
    case Test(t) => s.(place := s.place[t := if s.running then Taking else Done])
    case Take(t, pick) => TakeLocked(s, t, pick)
    case TakeAgain(t, pick) => TakeLocked(s.(notEmpty := Return(s.notEmpty, t)), t, pick)
    case Finish(t) => s.(place := s.place[t := if t in s.workers then AtTest else Done])
    case Spurious(t) => s.(notEmpty := Wake(s.notEmpty, t), notFull := Wake(s.notFull, t))
    case Stop => s.(running := false, notEmpty := NotifyAll(s.notEmpty), notFull := NotifyAll(s.notFull))
  }

  predicate IsRun<T>(s: Pool<T>, steps: seq<Step<T>>)
    decreases |steps|
  {
    steps == [] || (Enabled(s, steps[0]) && IsRun(Next(s, steps[0]), steps[1..]))
  }

  function After<T>(s: Pool<T>, steps: seq<Step<T>>): Pool<T>
    requires IsRun(s, steps)
    decreases |steps|
  {
    if steps == [] then s else After(Next(s, steps[0]), steps[1..])
  }

  // ---------------------------------------------------------------------------------------
  // The invariant, in three parts.

  /** A thread is among the waiters of a condition exactly while it is in that wait. */
  ghost predicate PlacedAt<T>(s: Pool<T>, t: Tid)
  {
    && (t in Waiters(s.notEmpty) <==> t in s.place && s.place[t].InTake?)
    && (t in Waiters(s.notFull) <==> t in s.place && s.place[t].InRun?)
    && (t in s.place && (s.place[t].AtTest? || s.place[t].Taking? || s.place[t].InTake?) ==> t in s.workers)
    && (t in s.workers ==> t in s.place && (s.running ==> !s.place[t].Done?))
  }

  ghost predicate Placed<T>(s: Pool<T>)
  {
    forall t :: PlacedAt(s, t)
  }

  /** Every item and every free slot has somebody coming for it, if anybody sleeps. */
  ghost predicate Covered<T>(s: Pool<T>, items: int, slots: int)
  {
    && Apart(s.notEmpty) && Apart(s.notFull)
    && NoLostWakeup(s.notEmpty, items)
    && (s.max > 0 ==> |s.queue| <= s.max && NoLostWakeup(s.notFull, slots))
    && (s.max == 0 ==> Waiters(s.notFull) == {})
    && (s.workers == {} ==> s.queue == [] && Waiters(s.notFull) == {})
    && (!s.running ==> s.notEmpty.parked == {} && s.notFull.parked == {})
  }

  ghost predicate Signalled<T>(s: Pool<T>)
  {
    Covered(s, |s.queue|, s.max - |s.queue|)
  }

  /** The queue is first in, first out, and a pool that runs drops nothing. */
  ghost predicate Recorded<T>(s: Pool<T>)
  {
    && s.enqueued == s.taken + s.queue
    && (s.running ==> s.refused == [])
    && Tasks(s.settled) == if s.workers == {} then s.direct else s.enqueued + s.refused
  }

  function Tasks<T>(calls: seq<(Tid, T)>): (tasks: seq<T>)
    ensures |tasks| == |calls|
  {
    seq(|calls|, i requires 0 <= i < |calls| => calls[i].1)
  }

  ghost predicate Inv<T>(s: Pool<T>)
  {
    Placed(s) && Signalled(s) && Recorded(s)
  }

  // ---------------------------------------------------------------------------------------
  // Every step keeps it.

  lemma RunKeepsCover<T>(s: Pool<T>, t: Tid, task: T, pick: Tid)
    requires Covered(s, |s.queue|, s.max - |s.queue| - 1) && s.workers != {}
    requires CanPick(s.notEmpty, pick) && t !in s.notFull.woken
    ensures Signalled(RunLocked(s, t, task, pick))
  {
    NotifyCovers(s.notEmpty, pick, |s.queue|);
    WaitNeedsNoWork(s.notFull, t, s.max - |s.queue|);
  }

  lemma TakeKeepsCover<T>(s: Pool<T>, t: Tid, pick: Tid)
    requires Covered(s, |s.queue| - 1, s.max - |s.queue|) && s.workers != {}
    requires CanPick(s.notFull, pick) && t !in s.notEmpty.woken
    ensures Signalled(TakeLocked(s, t, pick))
  {
    NotifyCovers(s.notFull, pick, s.max - |s.queue|);
    WaitNeedsNoWork(s.notEmpty, t, |s.queue|);
  }

  lemma WakeParks(c: Condition<Tid>, t: Tid)
    ensures Waiters(Wake(c, t)) == Waiters(c)
    ensures Wake(c, t).parked <= c.parked
  {
  }

  lemma SpuriousKeepsCover<T>(s: Pool<T>, t: Tid)
    requires Signalled(s) && Enabled(s, Spurious(t))
    ensures Signalled(Next(s, Spurious(t)))
  {
    WakeKeeps(s.notEmpty, t, |s.queue|);
    WakeKeeps(s.notFull, t, s.max - |s.queue|);
    WakeParks(s.notEmpty, t);
    WakeParks(s.notFull, t);
    hide Wake;
  }

  lemma RunAgainKeepsCover<T>(s: Pool<T>, t: Tid, pick: Tid)
    requires Signalled(s) && Enabled(s, RunAgain(t, pick))
    ensures Signalled(Next(s, RunAgain(t, pick)))
  {
    ReturnTakes(s.notFull, t, s.max - |s.queue|);
    hide RunLocked;
    RunKeepsCover(s.(notFull := Return(s.notFull, t)), t, s.place[t].task, pick);
  }

  lemma TakeAgainKeepsCover<T>(s: Pool<T>, t: Tid, pick: Tid)
    requires Signalled(s) && PlacedAt(s, t) && Enabled(s, TakeAgain(t, pick))
    ensures Signalled(Next(s, TakeAgain(t, pick)))
  {
    ReturnTakes(s.notEmpty, t, |s.queue|);
    hide TakeLocked;
    TakeKeepsCover(s.(notEmpty := Return(s.notEmpty, t)), t, pick);
  }

  lemma StopKeepsCover<T>(s: Pool<T>)
    requires Signalled(s)
    ensures Signalled(Next(s, Stop))
  {
  }

  lemma StepKeepsCover<T>(s: Pool<T>, step: Step<T>)
    requires Placed(s) && Signalled(s) && Enabled(s, step)
    ensures Signalled(Next(s, step))
  {
    match step {
      case Run(t, task, pick) =>
        assert PlacedAt(s, t);
        hide RunLocked;
        if s.workers != {} {
          RunKeepsCover(s, t, task, pick);
        }
      case RunAgain(t, pick) => RunAgainKeepsCover(s, t, pick);
      case Take(t, pick) =>
        assert PlacedAt(s, t);
        hide TakeLocked;
        TakeKeepsCover(s, t, pick);
      case TakeAgain(t, pick) =>
        assert PlacedAt(s, t);
        TakeAgainKeepsCover(s, t, pick);
      case Spurious(t) => SpuriousKeepsCover(s, t);
      case Stop => StopKeepsCover(s);
      case Test(_) =>
      case Finish(_) =>
    }
  }

  lemma RunKeepsPlace<T>(s: Pool<T>, t: Tid, task: T, pick: Tid, u: Tid)
    requires t in s.place && (t != u ==> PlacedAt(s, u))
    requires t !in Waiters(s.notEmpty) && t !in Waiters(s.notFull)
    requires CanPick(s.notEmpty, pick)
    ensures PlacedAt(RunLocked(s, t, task, pick), u)
  {
    WakeParks(s.notEmpty, pick);
    hide Wake;
  }

  lemma TakeKeepsPlace<T>(s: Pool<T>, t: Tid, pick: Tid, u: Tid)
    requires t in s.place && t in s.workers && (t != u ==> PlacedAt(s, u))
    requires t !in Waiters(s.notEmpty) && t !in Waiters(s.notFull)
    requires CanPick(s.notFull, pick)
    ensures PlacedAt(TakeLocked(s, t, pick), u)
  {
    WakeParks(s.notFull, pick);
    hide Wake;
  }

  lemma StepKeepsPlace<T>(s: Pool<T>, step: Step<T>, u: Tid)
    requires Enabled(s, step) && Apart(s.notEmpty) && Apart(s.notFull)
    requires PlacedAt(s, u) && match step case Stop => true case _ => PlacedAt(s, step.t)
    ensures PlacedAt(Next(s, step), u)
  {
    match step {
      case Run(t, task, pick) =>
        hide RunLocked;
        if s.workers != {} {
          RunKeepsPlace(s, t, task, pick, u);
        }
      case RunAgain(t, pick) =>
        hide RunLocked;
        RunKeepsPlace(s.(notFull := Return(s.notFull, t)), t, s.place[t].task, pick, u);
      case Take(t, pick) =>
        hide TakeLocked;
        TakeKeepsPlace(s, t, pick, u);
      case TakeAgain(t, pick) =>
        hide TakeLocked;
        TakeKeepsPlace(s.(notEmpty := Return(s.notEmpty, t)), t, pick, u);
      case Spurious(t) =>
        WakeParks(s.notEmpty, t);
        WakeParks(s.notFull, t);
        hide Wake;
      case _ =>
    }
  }

  lemma StepKeepsPlaces<T>(s: Pool<T>, step: Step<T>)
    requires Placed(s) && Signalled(s) && Enabled(s, step)
    ensures Placed(Next(s, step))
  {
    forall u
      ensures PlacedAt(Next(s, step), u)
    {
      assert PlacedAt(s, u);
      assert step.Stop? || PlacedAt(s, step.t);
      hide PlacedAt, Next, Enabled;
      StepKeepsPlace(s, step, u);
    }
  }

  lemma TasksOneMore<T>(calls: seq<(Tid, T)>, t: Tid, task: T)
    ensures Tasks(calls + [(t, task)]) == Tasks(calls) + [task]
  {
  }

  lemma RunKeepsRecord<T>(s: Pool<T>, t: Tid, task: T, pick: Tid)
    requires Recorded(s) && CanPick(s.notEmpty, pick) && s.workers != {}
    ensures Recorded(RunLocked(s, t, task, pick))
  {
    TasksOneMore(s.settled, t, task);
    hide Tasks, Wake;
    if !s.running {
      assert s.enqueued + (s.refused + [task]) == (s.enqueued + s.refused) + [task];
    } else if !IsFull(s) {
      assert s.taken + (s.queue + [task]) == (s.taken + s.queue) + [task];
      assert (s.enqueued + [task]) + s.refused == (s.enqueued + s.refused) + [task];
    }
  }

  lemma TakeKeepsRecord<T>(s: Pool<T>, t: Tid, pick: Tid)
    requires Recorded(s) && CanPick(s.notFull, pick)
    ensures Recorded(TakeLocked(s, t, pick))
  {
    hide Tasks, Wake;
    if s.queue != [] {
      assert s.taken + s.queue == (s.taken + [s.queue[0]]) + s.queue[1..];
    }
  }

  lemma StepKeepsRecord<T>(s: Pool<T>, step: Step<T>)
    requires Placed(s) && Signalled(s) && Recorded(s) && Enabled(s, step)
    ensures Recorded(Next(s, step))
  {
    match step {
      case Run(t, task, pick) =>
        hide RunLocked;
        if s.workers == {} {
          TasksOneMore(s.settled, t, task);
          hide Tasks;
        } else {
          RunKeepsRecord(s, t, task, pick);
        }
      case RunAgain(t, pick) =>
        hide RunLocked;
        RunKeepsRecord(s.(notFull := Return(s.notFull, t)), t, s.place[t].task, pick);
      case Take(t, pick) =>
        hide TakeLocked;
        TakeKeepsRecord(s, t, pick);
      case TakeAgain(t, pick) =>
        hide TakeLocked;
        TakeKeepsRecord(s.(notEmpty := Return(s.notEmpty, t)), t, pick);
      case _ =>
    }
  }

  lemma StepKeepsConfiguration<T>(s: Pool<T>, step: Step<T>)
    requires Enabled(s, step)
    ensures Next(s, step).max == s.max && Next(s, step).workers == s.workers
    ensures Next(s, step).running == (s.running && step != Stop)
    ensures Placed(s) ==> Next(s, step).place.Keys == s.place.Keys
  {
    match step {
      case TakeAgain(t, pick) => assert Placed(s) ==> PlacedAt(s, t);
      case _ =>
    }
  }

  lemma StepKeepsInv<T>(s: Pool<T>, step: Step<T>)
    requires Inv(s) && Enabled(s, step)
    ensures Inv(Next(s, step))
  {
    hide Placed, Signalled, Recorded, Next, Enabled;
    StepKeepsCover(s, step);
    StepKeepsPlaces(s, step);
    StepKeepsRecord(s, step);
  }

  lemma {:induction false} InvHolds<T>(s: Pool<T>, steps: seq<Step<T>>)
    requires Inv(s) && IsRun(s, steps)
    ensures Inv(After(s, steps))
    ensures After(s, steps).max == s.max && After(s, steps).workers == s.workers
    ensures After(s, steps).running == (s.running && Stop !in steps)
    decreases |steps|
  {
    hide Placed, Signalled, Recorded, Next, Enabled;
    if steps == [] {
    } else {
      StepKeepsInv(s, steps[0]);
      StepKeepsConfiguration(s, steps[0]);
      InvHolds(Next(s, steps[0]), steps[1..]);
      assert Stop in steps <==> steps[0] == Stop || Stop in steps[1..];
    }
  }

  // ---------------------------------------------------------------------------------------
  // What holds in every run of a pool.

  lemma InitInv<T>(max: nat, workers: set<Tid>, clients: set<Tid>)
    ensures Inv<T>(Init(max, workers, clients))
  {
    var s: Pool<T> := Init(max, workers, clients);
    forall t
      ensures PlacedAt(s, t)
    {
    }
  }

  /**
    The queue never exceeds its bound. A worker sleeps only if every queued task has a worker on
    its way; a caller of `run` sleeps only if every free slot has one on its way; after `stop`
    nobody sleeps.
   */
  lemma NoWakeupIsLost<T>(max: nat, workers: set<Tid>, clients: set<Tid>, steps: seq<Step<T>>)
    requires IsRun(Init(max, workers, clients), steps)
    ensures var s := After(Init(max, workers, clients), steps);
            && (max > 0 ==> |s.queue| <= max)
            && (s.notEmpty.parked != {} ==> |s.queue| <= |s.notEmpty.woken|)
            && (s.notFull.parked != {} ==> max > 0 && max - |s.queue| <= |s.notFull.woken|)
            && (Stop in steps ==> s.notEmpty.parked == {} && s.notFull.parked == {})
  {
    InitInv<T>(max, workers, clients);
    InvHolds(Init(max, workers, clients), steps);
    hide After, Init;
  }

  /** `isFull` says exactly that no slot is free, and `run` enqueues only when it is false. */
  lemma FullIsNoSlot<T>(max: nat, workers: set<Tid>, clients: set<Tid>, steps: seq<Step<T>>)
    requires IsRun(Init(max, workers, clients), steps)
    ensures var s := After(Init(max, workers, clients), steps);
            && (IsFull(s) <==> max > 0 && |s.queue| == max)
            && (forall t, task, pick | CanPick(s.notEmpty, pick) ::
                  |RunLocked(s, t, task, pick).queue| > |s.queue| <==> s.running && !IsFull(s))
  {
    InitInv<T>(max, workers, clients);
    InvHolds(Init(max, workers, clients), steps);
    hide After, Init, Wake;
  }

  /**
    Tasks leave the queue in the order they entered it, each at most once; they entered it in the
    order in which the calls of `run` returned; and before `stop` none is dropped.
   */
  lemma FirstInFirstOut<T>(max: nat, workers: set<Tid>, clients: set<Tid>, steps: seq<Step<T>>)
    requires IsRun(Init(max, workers, clients), steps) && workers != {}
    ensures var s := After(Init(max, workers, clients), steps);
            && Tasks(s.settled) == s.taken + s.queue + s.refused
            && (Stop !in steps ==> s.refused == [])
  {
    InitInv<T>(max, workers, clients);
    InvHolds(Init(max, workers, clients), steps);
    hide After;
  }

  /** What became of a call of `take`: the thread sleeps, or returns without or with a task. */
  datatype TakeResult<T> = Asleep | NoTask | Got(task: T)

  /** A task is returned exactly when there is one, and it is the oldest, even after `stop`. */
  function TakeOutcome<T>(s: Pool<T>): TakeResult<T>
  {
    if s.queue != [] then Got(s.queue[0]) else if s.running then Asleep else NoTask
  }

  /** The tasks that the calls of `take` return in a run. */
  function Results<T>(s: Pool<T>, steps: seq<Step<T>>): seq<T>
    requires IsRun(s, steps)
    decreases |steps|
  {
    if steps == [] then []
    else
      (if (steps[0].Take? || steps[0].TakeAgain?) && TakeOutcome(s).Got? then [TakeOutcome(s).task] else [])
      + Results(Next(s, steps[0]), steps[1..])
  }

  /**
    A task returned is the oldest of the queue and is gone from it; nothing else leaves the queue. Who
    gets none sleeps, or goes back to its loop test.
   */
  lemma StepTakes<T>(s: Pool<T>, step: Step<T>)
    requires Enabled(s, step)
    ensures var n, r := Next(s, step), TakeOutcome(s);
            && (if (step.Take? || step.TakeAgain?) && r.Got? then
                  s.queue == [r.task] + n.queue && n.taken == s.taken + [r.task]
                else
                  s.queue <= n.queue && n.taken == s.taken)
            && (step.Take? || step.TakeAgain? ==>
                  match n.place[step.t]
                  case InTake => r == Asleep
                  case AtTest => r == NoTask
                  case User => r.Got?
                  case _ => false)
  {
    hide Wake;
  }

  lemma {:induction false} RunTakes<T>(s: Pool<T>, steps: seq<Step<T>>)
    requires IsRun(s, steps)
    ensures After(s, steps).taken == s.taken + Results(s, steps)
    decreases |steps|
  {
    hide Next, Enabled, TakeOutcome;
    if steps == [] {
    } else {
      StepTakes(s, steps[0]);
      RunTakes(Next(s, steps[0]), steps[1..]);
    }
  }

  /**
    So the calls of `take` return each task that got into the queue once, in order, also after
    `stop`: what they returned, what is queued and what `run` dropped after `stop` make up the tasks
    of the calls of `run` that came back. Without workers those calls ran their tasks themselves.
   */
  lemma EachTaskOnce<T>(max: nat, workers: set<Tid>, clients: set<Tid>, steps: seq<Step<T>>)
    requires IsRun(Init(max, workers, clients), steps)
    ensures var s, results := After(Init(max, workers, clients), steps), Results(Init(max, workers, clients), steps);
            Tasks(s.settled) == if workers == {} then s.direct else results + s.queue + s.refused
  {
    InitInv<T>(max, workers, clients);
    InvHolds(Init(max, workers, clients), steps);
    RunTakes(Init(max, workers, clients), steps);
    hide After, Results;
  }

  /** The tasks that thread `t` passed to `run`. */
  function OfferedBy<T>(steps: seq<Step<T>>, t: Tid): seq<T>
    decreases |steps|
  {
    if steps == [] then []
    else Offer(steps[0], t) + OfferedBy(steps[1..], t)
  }

  function Offer<T>(step: Step<T>, t: Tid): seq<T>
  {
    if step.Run? && step.t == t then [step.task] else []
  }

  function SettledBy<T>(calls: seq<(Tid, T)>, t: Tid): seq<T>
    decreases |calls|
  {
    if calls == [] then []
    else SettledBy(calls[..|calls| - 1], t) + (if calls[|calls| - 1].0 == t then [calls[|calls| - 1].1] else [])
  }

  /** The task thread `t` waits with, if it waits in `run`. */
  function Held<T>(s: Pool<T>, t: Tid): seq<T>
  {
    if t in s.place && s.place[t].InRun? then [s.place[t].task] else []
  }

  /** What the calls of thread `t` came to: settled, or still waiting. */
  function Accounted<T>(s: Pool<T>, t: Tid): seq<T>
  {
    SettledBy(s.settled, t) + Held(s, t)
  }

  lemma SettledOneMore<T>(calls: seq<(Tid, T)>, t: Tid, task: T, u: Tid)
    ensures SettledBy(calls + [(t, task)], u) == SettledBy(calls, u) + if t == u then [task] else []
  {
    assert (calls + [(t, task)])[..|calls|] == calls;
  }

  lemma RunLockedSettles<T>(s: Pool<T>, t: Tid, task: T, pick: Tid, u: Tid)
    requires CanPick(s.notEmpty, pick)
    ensures var n := RunLocked(s, t, task, pick);
            SettledBy(n.settled, u) + Held(n, u)
              == SettledBy(s.settled, u) + if t == u then [task] else Held(s, u)
  {
    SettledOneMore(s.settled, t, task, u);
    hide SettledBy, Wake;
  }

  lemma TakeLockedSettles<T>(s: Pool<T>, t: Tid, pick: Tid, u: Tid)
    requires CanPick(s.notFull, pick) && t in s.place && !s.place[t].InRun?
    ensures var n := TakeLocked(s, t, pick);
            n.settled == s.settled && Held(n, u) == Held(s, u)
  {
    hide Wake;
  }

  lemma StepSettles<T>(s: Pool<T>, step: Step<T>, u: Tid)
    requires Inv(s) && Enabled(s, step)
    ensures Accounted(Next(s, step), u) == Accounted(s, u) + Offer(step, u)
  {
    hide SettledBy;
    match step {
      case Run(t, task, pick) =>
        hide RunLocked;
        if s.workers == {} {
          SettledOneMore(s.settled, t, task, u);
        } else {
          RunLockedSettles(s, t, task, pick, u);
        }
      case RunAgain(t, pick) =>
        hide RunLocked;
        RunLockedSettles(s.(notFull := Return(s.notFull, t)), t, s.place[t].task, pick, u);
      case Take(t, pick) =>
        TakeLockedSettles(s, t, pick, u);
      case TakeAgain(t, pick) =>
        assert PlacedAt(s, t);
        TakeLockedSettles(s.(notEmpty := Return(s.notEmpty, t)), t, pick, u);
      case _ =>
        hide Wake;
    }
  }

  lemma Chained<A>(start: seq<A>, middle: seq<A>, end: seq<A>, first: seq<A>, rest: seq<A>)
    requires middle == start + first && end == middle + rest
    ensures end == start + (first + rest)
  {
  }

  lemma {:induction false} RunSettles<T>(s: Pool<T>, steps: seq<Step<T>>, u: Tid)
    requires Inv(s) && IsRun(s, steps)
    ensures Accounted(After(s, steps), u) == Accounted(s, u) + OfferedBy(steps, u)
    decreases |steps|
  {
    hide Inv, Next, Enabled, Accounted, Offer;
    if steps == [] {
      assert Accounted(s, u) + [] == Accounted(s, u);
    } else {
      var n := Next(s, steps[0]);
      StepSettles(s, steps[0], u);
      StepKeepsInv(s, steps[0]);
      RunSettles(n, steps[1..], u);
      Chained(Accounted(s, u), Accounted(n, u), Accounted(After(n, steps[1..]), u),
              Offer(steps[0], u), OfferedBy(steps[1..], u));
    }
  }

  /**
    No task gets lost on the way into the queue: what a thread passed to `run` is, in that order,
    what its returned calls settled and then the task it is waiting with.
   */
  lemma EveryCallSettles<T>(max: nat, workers: set<Tid>, clients: set<Tid>, steps: seq<Step<T>>, t: Tid)
    requires IsRun(Init(max, workers, clients), steps)
    ensures var s := After(Init(max, workers, clients), steps);
            OfferedBy(steps, t) == SettledBy(s.settled, t) + Held(s, t)
  {
    hide After, OfferedBy, Inv;
    InitInv<T>(max, workers, clients);
    InitAccounted<T>(max, workers, clients, t);
    RunSettles(Init(max, workers, clients), steps, t);
    hide Init, SettledBy, Held;
  }

  lemma InitAccounted<T>(max: nat, workers: set<Tid>, clients: set<Tid>, t: Tid)
    ensures Accounted<T>(Init(max, workers, clients), t) == []
  {
  }
}
